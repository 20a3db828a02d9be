/**
  When a pause is not seen: exactly which parked executions go on, given a reply, as they would have
  gone on without the pause. What is compared is what the code shows: the execution, how the call ends
  and the callbacks it makes.
 */
module SagaResuming {
  import opened Wrappers
  import opened SagaModel
  import opened SagaCompensation
  import SM = SagaManager
  import opened SagaTransparency

  // ---------------------------------------------------------------- the condition

  /** Whatever the callbacks and the reply, or not: the execution, resumed with this context, may wait for another reply. */
  ghost predicate MayPause<C(!new)>(context: C, x: Exec<C>) {
    exists env: Env<C>, reply :: Execute(env, x.(context := context), x, Some(reply)).outcome == PausedRun
  }

  /**
    `context` is the outermost one. Innermost it has to be there; on the levels in between it has to be
    there unless the context is dead: the level has nothing to compensate, and nothing further in waits again.
   */
  ghost predicate Harmless<C(!new)>(context: C, x: Exec<C>)
    decreases x
  {
    x.paused.Some? ==>
      if x.paused.value.inner.None? then x.context == context
      else
        var inner := x.paused.value.inner.value;
        (x.context == context || (Due(x.executed) == [] && !MayPause(context, inner))) && Harmless(context, inner)
  }

  /** What a call shows. */
  function Shown<C>(r: ExecResult<C>): ExecResult<C> { r.(failing := []) }

  lemma {:induction false} AlignedIsHarmless<C(!new)>(x: Exec<C>)
    requires Aligned(x)
    ensures Harmless(x.context, x)
    decreases x
  {
    if x.paused.Some? && x.paused.value.inner.Some? { AlignedIsHarmless(x.paused.value.inner.value); }
  }

  // ---------------------------------------------------------------- it suffices

  /** Completed and waiting executions are stored in the outer one, failed ones are dropped. */
  predicate Agree<C(==)>(a: ExecResult<C>, b: ExecResult<C>) {
    a.outcome == b.outcome && a.trace == b.trace && (a.outcome == Completed || a.outcome == PausedRun ==> a.exec == b.exec)
  }

  /** Without compensations a rollback calls nothing, raises nothing and keeps the context. */
  lemma {:induction false} QuietStep<C>(env: Env<C>, step: StepExec<C>, context: C)
    requires Complete(step) && DueStep(step) == []
    ensures var r := RollbackStep(env, step, context); r.result == Undone && r.trace == [] && r.context == context
    decreases step, 0
  {
    hide RollbackList, Due;
    if step.def.Conditional? && step.inner.Some? { QuietList(env, step.inner.value.executed, context); }
  }

  lemma {:induction false} QuietList<C>(env: Env<C>, steps: seq<StepExec<C>>, context: C)
    requires Due(steps) == [] && forall i :: 0 <= i < |steps| ==> Complete(steps[i])
    ensures var r := RollbackList(env, steps, context); !r.raised && !r.aborted && r.trace == [] && r.context == context
    decreases steps, 0
  {
    hide RollbackStep, Complete, DueStep;
    if steps != [] {
      QuietStep(env, steps[|steps| - 1], context);
      QuietList(env, steps[..|steps| - 1], context);
    }
  }

  /** Giving up where nothing is due looks the same with any context. */
  lemma {:induction false} QuietSettle<C>(env: Env<C>, x: Exec<C>, context: C, r: StepResult<C>, q: StepResult<C>)
    requires !x.alreadyRollback && Due(x.executed) == [] && forall i :: 0 <= i < |x.executed| ==> Complete(x.executed[i])
    requires (r.outcome.StepFailed? && q.outcome.StepFailed?) || (r.outcome.StepBroken? && q.outcome.StepBroken?)
    requires r.trace == q.trace
    ensures Agree(Settle(env, x.(context := context), r), Settle(env, x, q))
  {
    hide RollbackList, Complete, Due;
    QuietList(env, x.executed, context);
    QuietList(env, x.executed, x.context);
  }

  lemma {:induction false} SettleAgrees<C>(env: Env<C>, x: Exec<C>, r: StepResult<C>, q: StepResult<C>)
    requires r.outcome == q.outcome && !r.outcome.Done? && r.trace == q.trace && (r.outcome.StepPaused? ==> r.step == q.step)
    ensures Agree(Settle(env, x, r), Settle(env, x, q)) && Settle(env, x, r).exec == Settle(env, x, q).exec
  {
    hide RollbackExec;
  }

  lemma {:induction false} ConcludedAgrees<C>(step: StepExec<C>, a: ExecResult<C>, b: ExecResult<C>)
    requires Agree(a, b) && a.outcome in {Completed, Failed, PausedRun, RollbackFailed}
    ensures var r, q := Concluded(step, a), Concluded(step, b);
            r.outcome == q.outcome && r.trace == q.trace && (r.outcome.Done? || r.outcome.StepPaused? ==> r.step == q.step) &&
            (r.outcome.StepPaused? <==> a.outcome == PausedRun)
  {
  }

  /** A paused step that goes on: what becomes of the execution. */
  function Onwards<C>(env: Env<C>, x: Exec<C>, r: StepResult<C>): ExecResult<C> {
    if !r.outcome.Done? then Settle(env, x, r)
    else
      var next := Advance(x, r.step, r.outcome.context);
      var rest := RunPending(env, next, Remaining(next));
      rest.(trace := r.trace + rest.trace)
  }

  lemma {:induction false} ExecuteIsOnwards<C>(env: Env<C>, x: Exec<C>, context: C, reply: Response)
    requires Parked(x)
    ensures Execute(env, x.(context := context), x, Some(reply)) ==
            Onwards(env, x.(context := context, status := Running), Resume(env, x.paused.value, context, Some(reply)))
  {
    hide Resume, RunPending, Settle;
    assert x.(context := context).(status := Running) == x.(context := context, status := Running);
  }

  lemma {:induction false} ThroughIsOnwards<C>(env: Env<C>, x: Exec<C>, reply: Response)
    requires Parked(x) && ThroughResume(env, x.paused.value, x.context, [reply]).left == []
    ensures ThroughExec(env, x, [reply]) ==
            Taking(Onwards(env, x.(status := Running), ThroughResume(env, x.paused.value, x.context, [reply]).result), [])
  {
    hide ThroughResume, RunPending, ThroughPending, Settle;
    var r := ThroughResume(env, x.paused.value, x.context, [reply]).result;
    if r.outcome.Done? {
      var next := Advance(x.(status := Running), r.step, r.outcome.context);
      PendingWithout(env, next, Remaining(next));
    }
  }

  lemma {:induction false} PendingEnds<C>(env: Env<C>, x: Exec<C>, pending: seq<StepDef>)
    ensures RunPending(env, x, pending).outcome in {Completed, Failed, PausedRun, RollbackFailed}
    decreases |pending|
  {
    hide Fresh, RollbackExec;
    if pending != [] {
      var r := Fresh(env, pending[0], x.uuid, x.user, x.context);
      if r.outcome.Done? { PendingEnds(env, Advance(x, r.step, r.outcome.context), pending[1..]); }
    }
  }

  lemma {:induction false} OnwardsEnds<C>(env: Env<C>, x: Exec<C>, r: StepResult<C>)
    ensures Onwards(env, x, r).outcome in {Completed, Failed, PausedRun, RollbackFailed}
  {
    hide RunPending, RollbackExec;
    if r.outcome.Done? {
      var next := Advance(x, r.step, r.outcome.context);
      PendingEnds(env, next, Remaining(next));
    }
  }

  /** A step that was done replaces the context, so the old one is of no account. */
  lemma {:induction false} OnwardsForgets<C>(env: Env<C>, x: Exec<C>, context: C, r: StepResult<C>)
    requires r.outcome.Done?
    ensures Onwards(env, x.(context := context), r) == Onwards(env, x, r)
  {
    hide RunPending;
    assert Advance(x.(context := context), r.step, r.outcome.context) == Advance(x, r.step, r.outcome.context);
  }

  lemma {:induction false} OnwardsAgrees<C>(env: Env<C>, x: Exec<C>, r: StepResult<C>, q: StepResult<C>)
    requires r.outcome == q.outcome && r.trace == q.trace && (r.outcome.Done? || r.outcome.StepPaused? ==> r.step == q.step)
    ensures Agree(Onwards(env, x, r), Onwards(env, x, q)) && Onwards(env, x, r).exec == Onwards(env, x, q).exec
  {
    hide RunPending, RollbackExec, Settle;
    if !r.outcome.Done? { SettleAgrees(env, x, r, q); }
  }

  /** On a harmless level, with the outermost context in its place: the same, but for a failed execution that is dropped. */
  lemma {:induction false} HarmlessAgrees<C(!new)>(env: Env<C>, x: Exec<C>, context: C, reply: Response)
    requires Live(x) && Parked(x) && Harmless(context, x)
    ensures var a, t := Execute(env, x.(context := context), x, Some(reply)), ThroughExec(env, x, [reply]);
            t.left == [] && Agree(a, t.result) && (x.context == context ==> a.exec == t.result.exec)
    decreases x
  {
    hide Execute, ThroughExec, Onwards, MayPause, Concluded, Answer, Settle, Due, Complete;
    var step, running := x.paused.value, x.(status := Running);
    var r, q := Resume(env, step, context, Some(reply)), ThroughResume(env, step, x.context, [reply]);
    ExecuteIsOnwards(env, x, context, reply);
    if step.def.Remote? {
      assert q == Taking(r, []) && running.(context := context) == running;
      ThroughIsOnwards(env, x, reply);
    } else {
      var inner := step.inner.value;
      var a, t := Execute(env, inner.(context := context), inner, Some(reply)), ThroughExec(env, inner, [reply]);
      HarmlessAgrees(env, inner, context, reply);
      assert r == Concluded(step, a) && q == Taking(Concluded(step, t.result), []);
      ThroughIsOnwards(env, x, reply);
      ParkedEnds(env, inner, context, reply);
      ConcludedAgrees(step, a, t.result);
      assert a.outcome == PausedRun ==> MayPause(context, inner) by { PausesIsMay(env, inner, context, reply); }
      if x.context == context {
        assert running.(context := context) == running;
        OnwardsAgrees(env, running, r, q.result);
      } else if r.outcome.Done? {
        OnwardsForgets(env, running, context, r);
        OnwardsAgrees(env, running, r, q.result);
      } else {
        QuietOnwards(env, running, context, r, q.result);
      }
    }
  }

  lemma {:induction false} PausesIsMay<C(!new)>(env: Env<C>, x: Exec<C>, context: C, reply: Response)
    ensures Execute(env, x.(context := context), x, Some(reply)).outcome == PausedRun ==> MayPause(context, x)
  {
    hide Execute;
  }

  lemma {:induction false} ParkedEnds<C>(env: Env<C>, x: Exec<C>, context: C, reply: Response)
    requires Parked(x)
    ensures Execute(env, x.(context := context), x, Some(reply)).outcome in {Completed, Failed, PausedRun, RollbackFailed}
  {
    hide Execute, Onwards, Resume;
    ExecuteIsOnwards(env, x, context, reply);
    OnwardsEnds(env, x.(context := context, status := Running), Resume(env, x.paused.value, context, Some(reply)));
  }

  lemma {:induction false} QuietOnwards<C>(env: Env<C>, x: Exec<C>, context: C, r: StepResult<C>, q: StepResult<C>)
    requires !x.alreadyRollback && Due(x.executed) == [] && forall i :: 0 <= i < |x.executed| ==> Complete(x.executed[i])
    requires r.outcome == q.outcome && (r.outcome.StepFailed? || r.outcome.StepBroken?) && r.trace == q.trace
    ensures Agree(Onwards(env, x.(context := context), r), Onwards(env, x, q))
  {
    hide Settle, RunPending, Due, Complete;
    QuietSettle(env, x, context, r, q);
  }

  // ---------------------------------------------------------------- it is necessary: a reply that succeeds

  const Fine := Response(Success, 0, {})

  const Broken := Response(SystemError, 0, {})

  /** With callbacks that never raise and keep the context, a step completes or waits. */
  lemma {:induction false} MildFresh<C>(env: Env<C>, def: StepDef, uuid: Uuid, user: Option<Uuid>, context: C)
    requires Calm(env)
    ensures var r := Fresh(env, def, uuid, user, context); r.outcome == Done(context) || r.outcome == StepPaused
    decreases def, 0
  {
    hide RunPending, FirstHolding;
    if def.Conditional? {
      var i := FirstHolding(env, def.ifThen, context, 0);
      if i.Some? || def.elseThen.Some? {
        var saga := if i.Some? then def.ifThen[i.value].saga else def.elseThen.value;
        assert i.Some? ==> def.ifThen[i.value] in def.ifThen;
        MildPending(env, NewExec(saga, uuid, user, context).(status := Running), saga.steps);
      }
    }
  }

  /** Nothing raises and nothing changes the context. Conditions are not restricted. */
  ghost predicate Calm<C>(env: Env<C>) {
    env.local == Mild<C>().local && env.request == Mild<C>().request && env.handle == Mild<C>().handle &&
    env.undoLocal == Mild<C>().undoLocal && env.undoRequest == Mild<C>().undoRequest
  }

  /** The execution goes on from x: it has completed or waits, with the same context, and has kept what was done. */
  predicate GoesOn<C(==)>(x: Exec<C>, r: ExecResult<C>) {
    r.exec.context == x.context && |x.executed| <= |r.exec.executed| && r.exec.executed[..|x.executed|] == x.executed &&
    (r.outcome == Completed || r.outcome == PausedRun)
  }

  lemma {:induction false} MildPending<C>(env: Env<C>, x: Exec<C>, pending: seq<StepDef>)
    requires Calm(env)
    ensures GoesOn(x, RunPending(env, x, pending))
    decreases pending, 0
  {
    hide Fresh, Calm;
    if pending != [] {
      MildFresh(env, pending[0], x.uuid, x.user, x.context);
      var r := Fresh(env, pending[0], x.uuid, x.user, x.context);
      if r.outcome.Done? {
        var next := Advance(x, r.step, x.context);
        MildPending(env, next, pending[1..]);
        var y := RunPending(env, next, pending[1..]).exec;
        assert y.executed[..|x.executed|] == y.executed[..|next.executed|][..|x.executed|];
      }
    }
  }

  /** Going on from a paused step that was done, or waits again. */
  lemma {:induction false} MildOnwards<C>(env: Env<C>, x: Exec<C>, r: StepResult<C>)
    requires Calm(env) && (r.outcome.Done? || r.outcome.StepPaused?)
    ensures var e := Onwards(env, x, r);
            (e.outcome == Completed || e.outcome == PausedRun) &&
            if r.outcome.Done? then
              e.exec.context == r.outcome.context && |x.executed| < |e.exec.executed| && e.exec.executed[|x.executed|] == r.step
            else
              e.outcome == PausedRun && e.exec == x.(paused := Some(r.step), status := Paused)
  {
    hide RunPending, Calm;
    if r.outcome.Done? {
      var next := Advance(x, r.step, r.outcome.context);
      MildPending(env, next, Remaining(next));
      var y := RunPending(env, next, Remaining(next)).exec;
      assert y.executed[|x.executed|] == y.executed[..|next.executed|][|x.executed|];
    }
  }

  /** Both go on, visibly differently. */
  predicate GoApart<C(==)>(a: ExecResult<C>, b: ExecResult<C>) {
    a.outcome in {Completed, PausedRun} && b.outcome in {Completed, PausedRun} && (a.outcome != b.outcome || a.exec != b.exec)
  }

  lemma {:induction false} MildAnswer<C>(env: Env<C>, step: StepExec<C>, context: C)
    requires Calm(env) && step.def.Remote?
    ensures Answer(env, step, context, Fine).outcome == Done(context)
  {
  }

  /** Innermost, another context than the outermost one is seen. */
  lemma {:induction false} InnermostTells<C>(x: Exec<C>, context: C)
    requires Parked(x) && x.paused.value.def.Remote? && x.context != context
    ensures GoApart(Execute(Mild(), x.(context := context), x, Some(Fine)), ThroughExec(Mild(), x, [Fine]).result)
    ensures ThroughExec(Mild(), x, [Fine]).left == []
  {
    var env: Env<C> := Mild();
    assert Calm(env);
    hide Execute, ThroughExec, Onwards, Answer, Mild, Calm;
    var step, running := x.paused.value, x.(status := Running);
    var r, q := Answer(env, step, context, Fine), Answer(env, step, x.context, Fine);
    MildAnswer(env, step, context);
    MildAnswer(env, step, x.context);
    assert Resume(env, step, context, Some(Fine)) == r && ThroughResume(env, step, x.context, [Fine]) == Taking(q, []);
    ExecuteIsOnwards(env, x, context, Fine);
    ThroughIsOnwards(env, x, Fine);
    MildOnwards(env, x.(context := context, status := Running), r);
    MildOnwards(env, running, q);
  }

  lemma {:induction false} ConcludedApart<C>(step: StepExec<C>, a: ExecResult<C>, b: ExecResult<C>)
    requires GoApart(a, b)
    ensures var r, q := Concluded(step, a), Concluded(step, b);
            (r.outcome.Done? || r.outcome.StepPaused?) && (q.outcome.Done? || q.outcome.StepPaused?) && r.step != q.step
  {
  }

  /** An inner execution is part of the outer one, which is therefore seen to differ too. */
  lemma {:induction false} OuterGoesApart<C>(x: Exec<C>, context: C)
    requires Parked(x) && x.paused.value.def.Conditional? && x.paused.value.inner.Some?
    requires var inner := x.paused.value.inner.value;
             ThroughExec(Mild(), inner, [Fine]).left == [] &&
             GoApart(Execute(Mild(), inner.(context := context), inner, Some(Fine)), ThroughExec(Mild(), inner, [Fine]).result)
    ensures GoApart(Execute(Mild(), x.(context := context), x, Some(Fine)), ThroughExec(Mild(), x, [Fine]).result)
    ensures ThroughExec(Mild(), x, [Fine]).left == []
  {
    var env: Env<C> := Mild();
    assert Calm(env);
    hide Execute, ThroughExec, Onwards, Mild, Calm, Concluded;
    var step, running := x.paused.value, x.(status := Running);
    var inner := step.inner.value;
    var a, t := Execute(env, inner.(context := context), inner, Some(Fine)), ThroughExec(env, inner, [Fine]);
    ConcludedApart(step, a, t.result);
    assert Resume(env, step, context, Some(Fine)) == Concluded(step, a);
    assert ThroughResume(env, step, x.context, [Fine]) == Taking(Concluded(step, t.result), []);
    ExecuteIsOnwards(env, x, context, Fine);
    ThroughIsOnwards(env, x, Fine);
    MildOnwards(env, x.(context := context, status := Running), Concluded(step, a));
    MildOnwards(env, running, Concluded(step, t.result));
  }

  // ---------------------------------------------------------------- a reply that fails

  /** With callbacks that never raise, a rollback makes one call for each compensation that is due, with the context it was given. */
  ghost predicate CallsWith<C>(trace: seq<Call<C>>, context: C, count: nat) {
    |trace| == count && forall k :: 0 <= k < |trace| ==> trace[k].context == context
  }

  lemma {:induction false} MildUndoStep<C>(step: StepExec<C>, context: C)
    requires Complete(step)
    ensures var r := RollbackStep(Mild(), step, context);
            r.result == Undone && r.context == context && CallsWith(r.trace, context, |DueStep(step)|)
    decreases step, 0
  {
    hide RollbackList, Due;
    if step.def.Conditional? && step.inner.Some? { MildUndoList(step.inner.value.executed, context); }
  }

  lemma {:induction false} MildUndoList<C>(steps: seq<StepExec<C>>, context: C)
    requires forall i :: 0 <= i < |steps| ==> Complete(steps[i])
    ensures var r := RollbackList(Mild(), steps, context);
            !r.raised && !r.aborted && r.context == context && CallsWith(r.trace, context, |Due(steps)|)
    decreases steps, 0
  {
    hide RollbackStep, Complete, DueStep, Mild;
    if steps != [] {
      MildUndoStep(steps[|steps| - 1], context);
      MildUndoList(steps[..|steps| - 1], context);
    }
  }

  /** Giving up with callbacks that never raise: the calls that are due, with the context there is. */
  lemma {:induction false} MildSettle<C>(x: Exec<C>, r: StepResult<C>)
    requires r.outcome.StepFailed? && !x.alreadyRollback && forall i :: 0 <= i < |x.executed| ==> Complete(x.executed[i])
    ensures var e := Settle(Mild(), x, r);
            e.outcome == Failed && |r.trace| <= |e.trace| && e.trace[..|r.trace|] == r.trace &&
            CallsWith(e.trace[|r.trace|..], x.context, |Due(x.executed)|)
  {
    hide RollbackList, Complete, Due, Mild;
    MildUndoList(x.executed, x.context);
    var undo := RollbackExec(Mild(), x, x.context);
    assert (r.trace + undo.trace)[|r.trace|..] == undo.trace;
  }

  /** Both fail after equally many calls. */
  predicate FailAlike<C>(a: ExecResult<C>, b: ExecResult<C>) {
    a.outcome == Failed && b.outcome == Failed && |a.trace| == |b.trace|
  }

  lemma {:induction false} BrokenSettles<C>(x: Exec<C>, context: C, r: StepResult<C>, q: StepResult<C>)
    requires !x.alreadyRollback && forall i :: 0 <= i < |x.executed| ==> Complete(x.executed[i])
    requires r.outcome.StepFailed? && q.outcome.StepFailed? && |r.trace| == |q.trace|
    ensures var a, b := Onwards(Mild(), x.(context := context), r), Onwards(Mild(), x, q);
            FailAlike(a, b) &&
            (r.trace != q.trace || (x.context != context && Due(x.executed) != []) ==> a.trace != b.trace)
  {
    hide Settle, Complete, Due, RunPending, Mild;
    MildSettle(x.(context := context), r);
    MildSettle(x, q);
    var a, b := Onwards(Mild(), x.(context := context), r).trace, Onwards(Mild(), x, q).trace;
    var n := |r.trace|;
    assert |a| == |a[n..]| + n && |b| == |b[n..]| + n;
    if x.context != context && Due(x.executed) != [] { assert a[n..][0].context == context && b[n..][0].context == x.context; }
  }

  /** A system error fails every level. The calls differ where a level has something to compensate with another context. */
  lemma {:induction false} BrokenTells<C>(x: Exec<C>, context: C)
    requires Live(x) && Parked(x)
    ensures var a, t := Execute(Mild(), x.(context := context), x, Some(Broken)), ThroughExec(Mild(), x, [Broken]);
            t.left == [] && FailAlike(a, t.result)
    ensures var a, t := Execute(Mild(), x.(context := context), x, Some(Broken)), ThroughExec(Mild(), x, [Broken]);
            x.context != context && Due(x.executed) != [] ==> a.trace != t.result.trace
    ensures x.paused.value.def.Conditional? && x.paused.value.inner.Some? ==>
              var inner := x.paused.value.inner.value;
              var a, t := Execute(Mild(), inner.(context := context), inner, Some(Broken)), ThroughExec(Mild(), inner, [Broken]);
              a.trace != t.result.trace ==>
                Execute(Mild(), x.(context := context), x, Some(Broken)).trace != ThroughExec(Mild(), x, [Broken]).result.trace
    decreases x
  {
    var env: Env<C> := Mild();
    hide Execute, ThroughExec, Onwards, Mild, Due, Complete;
    var step, running := x.paused.value, x.(status := Running);
    var r, q := Resume(env, step, context, Some(Broken)), ThroughResume(env, step, x.context, [Broken]);
    if step.def.Conditional? { BrokenTells(step.inner.value, context); }
    assert r.outcome.StepFailed? && q.result.outcome.StepFailed? && |r.trace| == |q.result.trace| && q.left == [];
    ExecuteIsOnwards(env, x, context, Broken);
    ThroughIsOnwards(env, x, Broken);
    BrokenSettles(running, context, r, q.result);
  }

  // ---------------------------------------------------------------- a reply after which it waits again

  predicate WaitApart<C(==)>(a: ExecResult<C>, b: ExecResult<C>) {
    a.outcome == PausedRun && b.outcome == PausedRun && a.exec != b.exec
  }

  /** A level whose inner execution waits again keeps its context. */
  lemma {:induction false} WaitingTells<C(!new)>(env: Env<C>, x: Exec<C>, context: C, reply: Response)
    requires Parked(x) && x.paused.value.def.Conditional? && x.paused.value.inner.Some?
    requires var inner := x.paused.value.inner.value;
             var a, t := Execute(env, inner.(context := context), inner, Some(reply)), ThroughExec(env, inner, [reply]);
             t.left == [] && a.outcome == PausedRun && t.result.outcome == PausedRun && (x.context != context || a.exec != t.result.exec)
    ensures var a, t := Execute(env, x.(context := context), x, Some(reply)), ThroughExec(env, x, [reply]);
            t.left == [] && WaitApart(a, t.result)
  {
    hide Execute, ThroughExec;
    var step := x.paused.value;
    ExecuteIsOnwards(env, x, context, reply);
    ThroughIsOnwards(env, x, reply);
  }

  // ---------------------------------------------------------------- the theorem

  /** The two executions are seen to differ, in a way that the outer levels cannot hide. */
  ghost predicate Tells<C>(env: Env<C>, x: Exec<C>, context: C, reply: Response) {
    var a, t := Execute(env, x.(context := context), x, Some(reply)), ThroughExec(env, x, [reply]);
    t.left == [] &&
    ((env == Mild() && reply == Fine && GoApart(a, t.result)) ||
     (env == Mild() && reply == Broken && a.trace != t.result.trace) ||
     WaitApart(a, t.result))
  }

  /** What an inner level tells, the outer one tells. */
  lemma {:induction false} OuterTells<C(!new)>(env: Env<C>, x: Exec<C>, context: C, reply: Response)
    requires Live(x) && Parked(x) && x.paused.value.def.Conditional? && x.paused.value.inner.Some?
    requires Tells(env, x.paused.value.inner.value, context, reply)
    ensures Tells(env, x, context, reply)
  {
    hide Execute, ThroughExec, Mild, Complete;
    var inner := x.paused.value.inner.value;
    var a, t := Execute(env, inner.(context := context), inner, Some(reply)), ThroughExec(env, inner, [reply]);
    if WaitApart(a, t.result) {
      WaitingTells(env, x, context, reply);
    } else if reply == Fine {
      OuterGoesApart(x, context);
    } else {
      BrokenTells(x, context);
    }
  }

  /** Where the condition fails, callbacks and a reply tell. */
  lemma {:induction false} HarmTells<C(!new)>(x: Exec<C>, context: C) returns (env: Env<C>, reply: Response)
    requires Live(x) && Parked(x) && !Harmless(context, x)
    ensures Tells(env, x, context, reply)
    decreases x
  {
    hide Execute, ThroughExec, Mild, MayPause;
    var step := x.paused.value;
    if step.def.Remote? {
      env, reply := Mild(), Fine;
      InnermostTells(x, context);
      assert Tells(env, x, context, reply);
    } else if !Harmless(context, step.inner.value) {
      env, reply := HarmTells(step.inner.value, context);
      OuterTells(env, x, context, reply);
    } else if Due(x.executed) != [] {
      env, reply := Mild(), Broken;
      BrokenTells(x, context);
      assert Tells(env, x, context, reply);
    } else {
      env, reply := WaitsAgain(step.inner.value, context);
      HarmlessAgrees(env, step.inner.value, context, reply);
      WaitingTells(env, x, context, reply);
      assert Tells(env, x, context, reply);
    }
  }

  lemma {:induction false} WaitsAgain<C(!new)>(x: Exec<C>, context: C) returns (env: Env<C>, reply: Response)
    requires MayPause(context, x)
    ensures Execute(env, x.(context := context), x, Some(reply)).outcome == PausedRun
  {
    hide Execute;
    env, reply :| Execute(env, x.(context := context), x, Some(reply)).outcome == PausedRun;
  }

  /**
    Resuming, exactly: a parked execution that gets a reply shows what it would have shown without the
    pause, whatever the callbacks and the reply, if and only if it is harmless.
   */
  lemma {:induction false} ResumingIsExact<C(!new)>(x: Exec<C>)
    requires Live(x) && Parked(x)
    ensures Harmless(x.context, x) <==>
            forall env: Env<C>, reply :: Shown(Run(env, x, Some(reply))) == Shown(ThroughExec(env, x, [reply]).result)
  {
    hide Execute, ThroughExec, Mild, MayPause, Harmless, Live, Parked;
    assert x.(context := x.context) == x;
    if Harmless(x.context, x) {
      forall env: Env<C>, reply ensures Shown(Run(env, x, Some(reply))) == Shown(ThroughExec(env, x, [reply]).result) {
        HarmlessAgrees(env, x, x.context, reply);
      }
    } else {
      var env, reply := HarmTells(x, x.context);
      assert Shown(Run(env, x, Some(reply))) != Shown(ThroughExec(env, x, [reply]).result);
    }
  }

  /** With one conditional that waits for a reply, it is that the inner context is the outer one. */
  lemma {:induction false} OneConditionalIsExact<C(!new)>(x: Exec<C>, inner: Exec<C>)
    requires Live(x) && Parked(x) && x.paused.value.inner == Some(inner) && inner.paused.Some? && inner.paused.value.inner.None?
    ensures inner.context == x.context <==>
            forall env: Env<C>, reply :: Shown(Run(env, x, Some(reply))) == Shown(ThroughExec(env, x, [reply]).result)
  {
    hide Execute, ThroughExec, Live;
    ResumingIsExact(x);
    assert Harmless(inner.context, inner) && (Harmless(x.context, inner) <==> inner.context == x.context);
  }

  // ---------------------------------------------------------------- which executions may wait again

  /** A remote step is somewhere in the step. */
  predicate Asks(def: StepDef)
    decreases def
  {
    match def
    case Local(_, _) => false
    case Remote(_, _, _, _) => true
    case Conditional(ifThen, elseThen) =>
      (exists i :: 0 <= i < |ifThen| && AsksIn(ifThen[i].saga)) || (elseThen.Some? && AsksIn(elseThen.value))
  }

  predicate AsksIn(saga: Saga)
    decreases saga
  {
    exists k :: 0 <= k < |saga.steps| && Asks(saga.steps[k])
  }

  /** After the paused step, on this level or further in, there is a remote step left. */
  predicate AsksLater<C>(x: Exec<C>)
    decreases x
  {
    (exists k :: |x.executed| < k < |x.def.steps| && Asks(x.def.steps[k])) ||
    (x.paused.Some? && x.paused.value.inner.Some? && AsksLater(x.paused.value.inner.value))
  }

  lemma {:induction false} SilentFresh<C>(env: Env<C>, def: StepDef, uuid: Uuid, user: Option<Uuid>, context: C)
    requires !Asks(def)
    ensures !Fresh(env, def, uuid, user, context).outcome.StepPaused?
    decreases def, 0
  {
    hide RunPending, FirstHolding;
    if def.Conditional? {
      var i := FirstHolding(env, def.ifThen, context, 0);
      if i.Some? || def.elseThen.Some? {
        var saga := if i.Some? then def.ifThen[i.value].saga else def.elseThen.value;
        assert i.Some? ==> def.ifThen[i.value] in def.ifThen;
        assert !AsksIn(saga);
        SilentPending(env, NewExec(saga, uuid, user, context).(status := Running), saga.steps);
      }
    }
  }

  lemma {:induction false} SilentPending<C>(env: Env<C>, x: Exec<C>, pending: seq<StepDef>)
    requires forall k :: 0 <= k < |pending| ==> !Asks(pending[k])
    ensures RunPending(env, x, pending).outcome != PausedRun
    decreases pending, 0
  {
    hide Fresh, RollbackExec, Asks;
    if pending != [] {
      SilentFresh(env, pending[0], x.uuid, x.user, x.context);
      var r := Fresh(env, pending[0], x.uuid, x.user, x.context);
      if r.outcome.Done? { SilentPending(env, Advance(x, r.step, r.outcome.context), pending[1..]); }
    }
  }

  /** Without a remote step left nothing waits again. */
  lemma {:induction false} SilentExecute<C>(env: Env<C>, x: Exec<C>, context: C, reply: Response)
    requires Parked(x) && !AsksLater(x)
    ensures Execute(env, x.(context := context), x, Some(reply)).outcome != PausedRun
    decreases x
  {
    hide Execute, Answer, RollbackExec, Asks, RunPending;
    var step, running := x.paused.value, x.(context := context, status := Running);
    ExecuteIsOnwards(env, x, context, reply);
    if step.def.Conditional? { SilentExecute(env, step.inner.value, context, reply); }
    var r := Resume(env, step, context, Some(reply));
    assert !r.outcome.StepPaused? by { if step.def.Remote? { AnswerEnds(env, step, context, reply); } }
    if r.outcome.Done? {
      var next := Advance(running, r.step, r.outcome.context);
      SilentPending(env, next, Remaining(next));
    }
  }

  lemma {:induction false} AnswerEnds<C>(env: Env<C>, step: StepExec<C>, context: C, reply: Response)
    requires step.def.Remote?
    ensures !Answer(env, step, context, reply).outcome.StepPaused?
  {
    hide RollbackStep;
  }

  /** Callbacks that never raise and change nothing; exactly these conditions hold. */
  function Choosing<C>(holding: set<Op>): Env<C> { Mild<C>().(holds := (op, context) => op in holding) }

  function First(holding: set<Op>, ifThen: seq<Alternative>, from: nat): (r: Option<nat>)
    ensures r.Some? ==> r.value < |ifThen|
    decreases |ifThen| - from
  {
    if from >= |ifThen| then None else if ifThen[from].condition in holding then Some(from) else First(holding, ifThen, from + 1)
  }

  lemma {:induction false} FirstIsChosen<C>(holding: set<Op>, ifThen: seq<Alternative>, context: C, from: nat)
    ensures FirstHolding(Choosing(holding), ifThen, context, from) == First(holding, ifThen, from)
    decreases |ifThen| - from
  {
    if from < |ifThen| { FirstIsChosen(holding, ifThen, context, from + 1); }
  }

  /** If exactly these conditions hold, the step comes to a remote step. */
  predicate Stops(holding: set<Op>, def: StepDef)
    decreases def
  {
    match def
    case Local(_, _) => false
    case Remote(_, _, _, _) => true
    case Conditional(ifThen, elseThen) =>
      var i := First(holding, ifThen, 0);
      if i.Some? then StopsIn(holding, ifThen[i.value].saga) else elseThen.Some? && StopsIn(holding, elseThen.value)
  }

  predicate StopsIn(holding: set<Op>, saga: Saga)
    decreases saga
  {
    exists k :: 0 <= k < |saga.steps| && Stops(holding, saga.steps[k])
  }

  predicate StopsLater<C>(holding: set<Op>, x: Exec<C>)
    decreases x
  {
    (exists k :: |x.executed| < k < |x.def.steps| && Stops(holding, x.def.steps[k])) ||
    (x.paused.Some? && x.paused.value.inner.Some? && StopsLater(holding, x.paused.value.inner.value))
  }

  lemma {:induction false} StoppingFresh<C>(holding: set<Op>, def: StepDef, uuid: Uuid, user: Option<Uuid>, context: C)
    requires Stops(holding, def)
    ensures Fresh(Choosing(holding), def, uuid, user, context).outcome.StepPaused?
    decreases def, 0
  {
    hide RunPending, FirstHolding;
    if def.Conditional? {
      FirstIsChosen(holding, def.ifThen, context, 0);
      var i := First(holding, def.ifThen, 0);
      var saga := if i.Some? then def.ifThen[i.value].saga else def.elseThen.value;
      assert i.Some? ==> def.ifThen[i.value] in def.ifThen;
      assert StopsIn(holding, saga);
      StoppingPending(holding, NewExec(saga, uuid, user, context).(status := Running), saga.steps);
    }
  }

  lemma {:induction false} StoppingPending<C>(holding: set<Op>, x: Exec<C>, pending: seq<StepDef>)
    requires exists k :: 0 <= k < |pending| && Stops(holding, pending[k])
    ensures RunPending(Choosing(holding), x, pending).outcome == PausedRun
    decreases pending, 0
  {
    hide Fresh, Stops;
    var env: Env<C> := Choosing(holding);
    var r := Fresh(env, pending[0], x.uuid, x.user, x.context);
    assert Calm(env);
    MildFresh(env, pending[0], x.uuid, x.user, x.context);
    if r.outcome.Done? {
      var k :| 0 <= k < |pending| && Stops(holding, pending[k]);
      if k == 0 { StoppingFresh(holding, pending[0], x.uuid, x.user, x.context); }
      assert pending[1..][k - 1] == pending[k];
      StoppingPending(holding, Advance(x, r.step, r.outcome.context), pending[1..]);
    }
  }

  /** A parked execution that comes to a remote step waits again. */
  lemma {:induction false} StoppingExecute<C>(holding: set<Op>, x: Exec<C>, context: C)
    requires Parked(x)
    ensures var e := Execute(Choosing(holding), x.(context := context), x, Some(Fine));
            e.outcome in {Completed, PausedRun} && (StopsLater(holding, x) ==> e.outcome == PausedRun)
    decreases x
  {
    var env: Env<C> := Choosing(holding);
    assert Calm(env);
    hide Execute, Answer, RunPending, Stops, Choosing, Calm, Onwards;
    var step, running := x.paused.value, x.(context := context, status := Running);
    ExecuteIsOnwards(env, x, context, Fine);
    if step.def.Conditional? { StoppingExecute(holding, step.inner.value, context); } else { MildAnswer(env, step, context); }
    var r := Resume(env, step, context, Some(Fine));
    assert r.outcome.Done? || r.outcome.StepPaused?;
    MildOnwards(env, running, r);
    if r.outcome.Done? && StopsLater(holding, x) { StoppingOnwards(holding, running, r); }
  }

  lemma {:induction false} StoppingOnwards<C>(holding: set<Op>, x: Exec<C>, r: StepResult<C>)
    requires r.outcome.Done? && exists k :: |x.executed| < k < |x.def.steps| && Stops(holding, x.def.steps[k])
    ensures Onwards(Choosing(holding), x, r).outcome == PausedRun
  {
    hide RunPending, Stops, Choosing;
    var next := Advance(x, r.step, r.outcome.context);
    var k :| |x.executed| < k < |x.def.steps| && Stops(holding, x.def.steps[k]);
    assert Remaining(next)[k - |next.executed|] == x.def.steps[k];
    StoppingPending(holding, next, Remaining(next));
  }

  // ---------------------------------------------------------------- conditions that are asked once

  predicate Mentions(op: Op, def: StepDef)
    decreases def
  {
    def.Conditional? &&
    ((exists i :: 0 <= i < |def.ifThen| && (def.ifThen[i].condition == op || MentionsIn(op, def.ifThen[i].saga))) ||
     (def.elseThen.Some? && MentionsIn(op, def.elseThen.value)))
  }

  predicate MentionsIn(op: Op, saga: Saga)
    decreases saga
  {
    exists k :: 0 <= k < |saga.steps| && Mentions(op, saga.steps[k])
  }

  /** No condition of the step is used for two alternatives that exclude or contain each other. */
  predicate Free(def: StepDef)
    decreases def
  {
    def.Conditional? ==>
      (forall i, j :: 0 <= i < j < |def.ifThen| ==> def.ifThen[i].condition != def.ifThen[j].condition) &&
      (forall i, j :: 0 <= i < |def.ifThen| && 0 <= j < |def.ifThen| ==> !MentionsIn(def.ifThen[i].condition, def.ifThen[j].saga)) &&
      (def.elseThen.Some? ==> forall i :: 0 <= i < |def.ifThen| ==> !MentionsIn(def.ifThen[i].condition, def.elseThen.value)) &&
      (forall i :: 0 <= i < |def.ifThen| ==> FreeIn(def.ifThen[i].saga)) && (def.elseThen.Some? ==> FreeIn(def.elseThen.value))
  }

  predicate FreeIn(saga: Saga)
    decreases saga
  {
    forall k :: 0 <= k < |saga.steps| ==> Free(saga.steps[k])
  }

  predicate FreeLater<C>(x: Exec<C>)
    decreases x
  {
    (forall k :: |x.executed| < k < |x.def.steps| ==> Free(x.def.steps[k])) &&
    (x.paused.Some? && x.paused.value.inner.Some? ==> FreeLater(x.paused.value.inner.value))
  }

  lemma {:induction false} FirstSkips(holding: set<Op>, ifThen: seq<Alternative>, from: nat, n: nat)
    requires from <= n <= |ifThen| && forall j :: from <= j < n ==> ifThen[j].condition !in holding
    requires n == |ifThen| || ifThen[n].condition in holding
    ensures First(holding, ifThen, from) == if n == |ifThen| then None else Some(n)
    decreases n - from
  {
    if from < n { FirstSkips(holding, ifThen, from + 1, n); }
  }

  /** Only the conditions of the step count. */
  lemma {:induction false} StopsAlike(a: set<Op>, b: set<Op>, def: StepDef)
    requires forall op :: Mentions(op, def) ==> (op in a <==> op in b)
    ensures Stops(a, def) <==> Stops(b, def)
    decreases def, 0
  {
    if def.Conditional? {
      FirstAlike(a, b, def.ifThen, 0);
      var i := First(a, def.ifThen, 0);
      if i.Some? {
        assert def.ifThen[i.value] in def.ifThen;
        StopsAlikeIn(a, b, def.ifThen[i.value].saga);
      } else if def.elseThen.Some? {
        StopsAlikeIn(a, b, def.elseThen.value);
      }
    }
  }

  lemma {:induction false} FirstAlike(a: set<Op>, b: set<Op>, ifThen: seq<Alternative>, from: nat)
    requires forall i :: 0 <= i < |ifThen| ==> (ifThen[i].condition in a <==> ifThen[i].condition in b)
    ensures First(a, ifThen, from) == First(b, ifThen, from)
    decreases |ifThen| - from
  {
    if from < |ifThen| { FirstAlike(a, b, ifThen, from + 1); }
  }

  lemma {:induction false} StopsAlikeIn(a: set<Op>, b: set<Op>, saga: Saga)
    requires forall op :: MentionsIn(op, saga) ==> (op in a <==> op in b)
    ensures StopsIn(a, saga) <==> StopsIn(b, saga)
    decreases saga, 0
  {
    hide Stops, Mentions;
    forall k | 0 <= k < |saga.steps| ensures Stops(a, saga.steps[k]) <==> Stops(b, saga.steps[k]) {
      assert forall op :: Mentions(op, saga.steps[k]) ==> MentionsIn(op, saga);
      StopsAlike(a, b, saga.steps[k]);
    }
  }

  /** If its conditions are asked once, any remote step within a step can be reached. */
  lemma {:induction false} AskedIsReached(def: StepDef) returns (holding: set<Op>)
    requires Free(def) && Asks(def)
    ensures Stops(holding, def) && forall op :: op in holding ==> Mentions(op, def)
    decreases def, 0
  {
    hide StopsIn, AsksIn, FreeIn, MentionsIn;
    if def.Remote? {
      holding := {};
    } else if i :| 0 <= i < |def.ifThen| && AsksIn(def.ifThen[i].saga) {
      assert def.ifThen[i] in def.ifThen;
      var within := AskedIsReachedIn(def.ifThen[i].saga);
      holding := within + {def.ifThen[i].condition};
      FirstSkips(holding, def.ifThen, 0, i);
      StopsAlikeIn(within, holding, def.ifThen[i].saga);
    } else {
      holding := AskedIsReachedIn(def.elseThen.value);
      FirstSkips(holding, def.ifThen, 0, |def.ifThen|);
    }
  }

  lemma {:induction false} AskedIsReachedIn(saga: Saga) returns (holding: set<Op>)
    requires FreeIn(saga) && AsksIn(saga)
    ensures StopsIn(holding, saga) && forall op :: op in holding ==> MentionsIn(op, saga)
    decreases saga, 0
  {
    hide Stops, Asks, Free, Mentions;
    var k :| 0 <= k < |saga.steps| && Asks(saga.steps[k]);
    holding := AskedIsReached(saga.steps[k]);
  }

  lemma {:induction false} LaterIsReached<C>(x: Exec<C>) returns (holding: set<Op>)
    requires FreeLater(x) && AsksLater(x)
    ensures StopsLater(holding, x)
    decreases x
  {
    hide Stops, Asks, Free;
    if k :| |x.executed| < k < |x.def.steps| && Asks(x.def.steps[k]) {
      holding := AskedIsReached(x.def.steps[k]);
    } else {
      holding := LaterIsReached(x.paused.value.inner.value);
    }
  }

  /** Seen from the definition: without a remote step left nothing waits again; with one, unless conditions are reused, it may. */
  lemma {:induction false} MayPauseIsExact<C(!new)>(x: Exec<C>, context: C)
    requires Parked(x)
    ensures MayPause(context, x) ==> AsksLater(x)
    ensures FreeLater(x) ==> (MayPause(context, x) <==> AsksLater(x))
  {
    hide Execute, AsksLater, StopsLater, FreeLater, Parked;
    if MayPause(context, x) {
      var env, reply := WaitsAgain(x, context);
      if !AsksLater(x) { SilentExecute(env, x, context, reply); }
    }
    if FreeLater(x) && AsksLater(x) {
      var holding := LaterIsReached(x);
      StoppingExecute(holding, x, context);
      PausesIsMay(Choosing(holding), x, context, Fine);
    }
  }

  /** The condition as it can be checked before the call, on the definition and what has been executed of it. */
  predicate Checked<C(==)>(context: C, x: Exec<C>)
    decreases x
  {
    x.paused.Some? ==>
      if x.paused.value.inner.None? then x.context == context
      else
        var inner := x.paused.value.inner.value;
        (x.context == context || (Due(x.executed) == [] && !AsksLater(inner))) && Checked(context, inner)
  }

  lemma {:induction false} CheckedIsHarmless<C(!new)>(x: Exec<C>, context: C)
    requires Parked(x)
    ensures Checked(context, x) ==> Harmless(context, x)
    ensures FreeLater(x) ==> (Checked(context, x) <==> Harmless(context, x))
    decreases x
  {
    hide MayPause, AsksLater, Due;
    if x.paused.value.inner.Some? {
      MayPauseIsExact(x.paused.value.inner.value, context);
      CheckedIsHarmless(x.paused.value.inner.value, context);
    }
  }

  /** The check is sufficient for every execution, and exact for those whose conditions are asked once. */
  lemma {:induction false} ResumingIsDecided<C(!new)>(x: Exec<C>)
    requires Live(x) && Parked(x)
    ensures Checked(x.context, x) ==>
              forall env: Env<C>, reply :: Shown(Run(env, x, Some(reply))) == Shown(ThroughExec(env, x, [reply]).result)
    ensures FreeLater(x) &&
            (forall env: Env<C>, reply :: Shown(Run(env, x, Some(reply))) == Shown(ThroughExec(env, x, [reply]).result)) ==>
              Checked(x.context, x)
  {
    hide Execute, ThroughExec, Harmless, Checked, FreeLater, Live, Parked;
    ResumingIsExact(x);
    CheckedIsHarmless(x, x.context);
  }

  // ---------------------------------------------------------------- whole runs

  /** What completes or waits has not failed, whatever the callbacks. */
  ghost predicate StepLives<C>(r: StepResult<C>) {
    (r.outcome.Done? ==> Complete(r.step)) && (r.outcome.StepPaused? ==> Waiting(r.step))
  }

  ghost predicate ExecLives<C>(r: ExecResult<C>) {
    r.outcome in {Completed, Failed, PausedRun, RollbackFailed} &&
    (r.outcome == Completed ==> Live(r.exec) && r.exec.status == Finished) &&
    (r.outcome == PausedRun ==> Live(r.exec) && r.exec.status == SagaStatus.Paused)
  }

  lemma {:induction false} FreshLives<C>(env: Env<C>, def: StepDef, uuid: Uuid, user: Option<Uuid>, context: C)
    ensures StepLives(Fresh(env, def, uuid, user, context))
    decreases def, 0
  {
    hide RunPending, FirstHolding, Live;
    if def.Conditional? {
      var i := FirstHolding(env, def.ifThen, context, 0);
      if i.Some? || def.elseThen.Some? {
        var saga := if i.Some? then def.ifThen[i.value].saga else def.elseThen.value;
        assert i.Some? ==> def.ifThen[i.value] in def.ifThen;
        var x := NewExec(saga, uuid, user, context).(status := Running);
        assert Live(x) by { NewLives(saga, uuid, user, context); }
        PendingLives(env, x, saga.steps);
      }
    }
  }

  lemma {:induction false} NewLives<C>(saga: Saga, uuid: Uuid, user: Option<Uuid>, context: C)
    ensures Live(NewExec(saga, uuid, user, context).(status := Running))
  {
  }

  lemma {:induction false} PendingLives<C>(env: Env<C>, x: Exec<C>, pending: seq<StepDef>)
    requires Live(x.(paused := None)) && x.status == Running && |x.executed| + |pending| == |x.def.steps|
    requires x.paused.None?
    ensures ExecLives(RunPending(env, x, pending))
    decreases pending, 0
  {
    hide Fresh, RollbackExec, Complete, Waiting;
    if pending != [] {
      FreshLives(env, pending[0], x.uuid, x.user, x.context);
      var r := Fresh(env, pending[0], x.uuid, x.user, x.context);
      if r.outcome.Done? { PendingLives(env, Advance(x, r.step, r.outcome.context), pending[1..]); }
    }
  }

  lemma {:induction false} OnwardsLives<C>(env: Env<C>, x: Exec<C>, r: StepResult<C>)
    requires Live(x.(paused := None)) && x.status == Running && |x.executed| < |x.def.steps| && StepLives(r)
    ensures ExecLives(Onwards(env, x, r))
  {
    hide RunPending, RollbackExec, Complete, Waiting;
    if r.outcome.Done? {
      var next := Advance(x, r.step, r.outcome.context);
      PendingLives(env, next, Remaining(next));
    }
  }

  lemma {:induction false} ResumeLives<C>(env: Env<C>, step: StepExec<C>, context: C, reply: Response)
    requires Waiting(step) && TracksStep(step)
    ensures StepLives(Resume(env, step, context, Some(reply)))
    decreases step, 1
  {
    hide Execute, RollbackStep;
    if step.def.Conditional? { ExecuteLives(env, step.inner.value.(context := context), step.inner.value, reply); }
  }

  lemma {:induction false} ExecuteLives<C>(env: Env<C>, x: Exec<C>, bound: Exec<C>, reply: Response)
    requires Live(x) && Tracks(x) && x.status == SagaStatus.Paused && x.paused == bound.paused
    ensures ExecLives(Execute(env, x, bound, Some(reply)))
    decreases bound, 1
  {
    hide Resume, RunPending, RollbackExec, Complete, Waiting, TracksStep;
    Unpaused(x);
    var running := x.(status := Running);
    assert running.(paused := None) == x.(status := Running, paused := None);
    ResumeLives(env, bound.paused.value, x.context, reply);
    var r := Resume(env, bound.paused.value, x.context, Some(reply));
    OnwardsLives(env, running, r);
    assert Execute(env, x, bound, Some(reply)) == Onwards(env, running, r);
  }

  /** At every pause for which there is a reply, the parked execution is harmless. */
  ghost predicate AlwaysHarmless<C(!new)>(env: Env<C>, r: ExecResult<C>, replies: seq<Response>)
    decreases |replies|
  {
    r.outcome == PausedRun && replies != [] ==>
      Harmless(r.exec.context, r.exec) && AlwaysHarmless(env, Run(env, r.exec, Some(replies[0])), replies[1..])
  }

  /** What a run of the loop shows. */
  function Seen<C>(d: SM.Driven<C>): SM.Driven<C> { d.(failing := [], calls := 0) }

  lemma {:induction false} LoopIsHarmless<C(!new)>(env: Env<C>, r: ExecResult<C>, replies: seq<Response>)
    requires r.outcome == PausedRun && Parked(r.exec) && Live(r.exec) && Tracks(r.exec) && replies != [] && AlwaysHarmless(env, r, replies)
    ensures Seen(SM.After(env, r, replies)) == Seen(EndOf(Later(r.trace, ThroughExec(env, r.exec, replies)).result))
    decreases |replies|
  {
    hide ThroughExec, Execute, Harmless, Live, Tracks;
    var reply, rest := replies[0], replies[1..];
    var q := Run(env, r.exec, Some(reply));
    assert r.exec.(context := r.exec.context) == r.exec;
    HarmlessAgrees(env, r.exec, r.exec.context, reply);
    ExecuteLives(env, r.exec, r.exec, reply);
    ExecuteTracks(env, r.exec, r.exec, Some(reply));
    if rest == [] {
      assert replies == [reply];
    } else {
      assert [reply] + rest == replies;
      ThroughGoesOn(env, r.exec, [reply], rest);
      if q.outcome == PausedRun { LoopIsHarmless(env, q, rest); }
    }
    AfterLater(env, r, q, rest);
  }

  /**
    Transparency through conditionals: a saga of any shape, driven through its pauses, runs as if it never
    stopped, if it is harmless to resume it at each of them.
   */
  lemma {:induction false} HarmlessPausesAreTransparent<C(!new)>(env: Env<C>, saga: Saga, uuid: Uuid, user: Option<Uuid>, context: C,
                                                                 response: Option<Response>, replies: seq<Response>)
    requires ValidSaga(saga) && AlwaysHarmless(env, Run(env, NewExec(saga, uuid, user, context), response), replies)
    ensures var x := NewExec(saga, uuid, user, context);
            Seen(SM.Drive(env, x, response, replies)) ==
            Seen(EndOf(ThroughPending(env, x.(status := Running), saga.steps, replies).result))
  {
    hide ThroughPending, RunPending, ThroughExec, Live, Tracks, AlwaysHarmless;
    var x := NewExec(saga, uuid, user, context);
    var running := x.(status := Running);
    assert saga.steps[0..] == saga.steps;
    var r := RunPending(env, running, saga.steps);
    assert Run(env, x, response) == r;
    PendingWithout(env, running, saga.steps);
    NewExecStarts(saga, uuid, user, context);
    assert running.(paused := None) == running;
    PendingLives(env, running, saga.steps);
    RunPendingTracks(env, running, saga.steps);
    if replies != [] {
      PendingGoesOn(env, running, saga.steps, [], replies);
      assert [] + replies == replies;
      if r.outcome == PausedRun { LoopIsHarmless(env, r, replies); }
    }
  }

  // ---------------------------------------------------------------- a context that is lost and not missed

  /** A local callback leaves its own name as the context; nothing else changes it. */
  function Naming(): Env<int> { Mild<int>().(local := (op, context) => Some(op)) }

  const InmostSaga := Saga([Local(Some(0), None), Remote(Some(2), None, None, None)], true)

  const MiddleSaga := Saga([Local(Some(1), None), Conditional([Alternative(0, InmostSaga)], None)], true)

  const OutmostSaga := Saga([Conditional([Alternative(0, MiddleSaga)], None)], true)

  function StoppedInmost(uuid: Uuid): Exec<int> {
    Exec(InmostSaga, uuid, 0, SagaStatus.Paused, [StepExec(InmostSaga.steps[0], {""}, StepFinished, false, None)],
         Some(StepExec(InmostSaga.steps[1], {""}, PausedByOnExecute, false, None)), false, None)
  }

  function StoppedMiddle(uuid: Uuid): Exec<int> {
    Exec(MiddleSaga, uuid, 1, SagaStatus.Paused, [StepExec(MiddleSaga.steps[0], {""}, StepFinished, false, None)],
         Some(StepExec(MiddleSaga.steps[1], {""}, PausedByOnExecute, false, Some(StoppedInmost(uuid)))), false, None)
  }

  function StoppedOutmost(uuid: Uuid): Exec<int> {
    Exec(OutmostSaga, uuid, 0, SagaStatus.Paused, [],
         Some(StepExec(OutmostSaga.steps[0], {""}, PausedByOnExecute, false, Some(StoppedMiddle(uuid)))), false, None)
  }

  /** A saga that runs a local step and then stops at the next one. */
  lemma {:induction false} LocalThenStops(env: Env<int>, saga: Saga, uuid: Uuid, context: int, op: Op)
    requires |saga.steps| == 2 && saga.steps[0] == Local(Some(op), None) && env == Naming()
    requires Fresh(env, saga.steps[1], uuid, None, op).outcome.StepPaused?
    ensures var q := Fresh(env, saga.steps[1], uuid, None, op);
            var r := RunPending(env, NewExec(saga, uuid, None, context).(status := Running), saga.steps);
            r.outcome == PausedRun && r.exec ==
              Exec(saga, uuid, op, SagaStatus.Paused, [StepExec(saga.steps[0], {""}, StepFinished, false, None)], Some(q.step), false, None)
  {
    var x := NewExec(saga, uuid, None, context).(status := Running);
    var r := Fresh(env, saga.steps[0], uuid, None, context);
    assert r.outcome == Done(op);
    hide Fresh;
    assert saga.steps[1..] == [saga.steps[1]];
    PendingStops(env, Advance(x, r.step, op), [saga.steps[1]]);
  }

  /** The saga stops with the contexts 0, 1 and 0, from outside in. */
  lemma {:induction false} OutmostStops(uuid: Uuid, response: Option<Response>)
    ensures var r := Run(Naming(), NewExec(OutmostSaga, uuid, None, 0), response);
            r.outcome == PausedRun && r.exec == StoppedOutmost(uuid)
  {
    hide RunPending;
    var env := Naming();
    LocalThenStops(env, InmostSaga, uuid, 1, 0);
    assert FirstHolding(env, MiddleSaga.steps[1].ifThen, 1, 0) == Some(0);
    assert Fresh(env, MiddleSaga.steps[1], uuid, None, 1).step == StoppedMiddle(uuid).paused.value;
    LocalThenStops(env, MiddleSaga, uuid, 0, 1);
    assert FirstHolding(env, OutmostSaga.steps[0].ifThen, 0, 0) == Some(0);
    assert Fresh(env, OutmostSaga.steps[0], uuid, None, 0).step == StoppedOutmost(uuid).paused.value;
    assert OutmostSaga.steps[0..] == OutmostSaga.steps;
    FirstRun(env, OutmostSaga, uuid, 0, response);
    PendingStops(env, NewExec(OutmostSaga, uuid, None, 0).(status := Running), OutmostSaga.steps);
  }

  /** A level that stopped after steps without inner executions. */
  lemma {:induction false} LevelStops<C>(x: Exec<C>)
    requires x.status == SagaStatus.Paused && !x.alreadyRollback && x.paused.Some?
    requires forall i :: 0 <= i < |x.executed| ==> Simple(x.executed[i])
    requires var step := x.paused.value;
             step.status == PausedByOnExecute && !step.alreadyRollback &&
             if step.inner.None? then step.def.Remote?
             else step.def.Conditional? && step.inner.value.status == SagaStatus.Paused && Live(step.inner.value) &&
                  Parked(step.inner.value)
    ensures Live(x) && Parked(x)
  {
    forall i | 0 <= i < |x.executed| ensures Complete(x.executed[i]) { assert Simple(x.executed[i]); }
    assert Waiting(x.paused.value) && ParkedStep(x.paused.value);
  }

  predicate Simple<C>(step: StepExec<C>) { step.status == StepFinished && !step.alreadyRollback && step.inner.None? }

  /** The middle context is lost when the saga is resumed, so it is not aligned, and no callbacks and no reply show it. */
  lemma {:induction false} DeadContextIsUnseen(uuid: Uuid, response: Option<Response>)
    ensures var x := Run(Naming(), NewExec(OutmostSaga, uuid, None, 0), response).exec;
            Live(x) && Parked(x) && !Aligned(x) && Harmless(x.context, x) &&
            forall env: Env<int>, reply :: Shown(Run(env, x, Some(reply))) == Shown(ThroughExec(env, x, [reply]).result)
  {
    OutmostStops(uuid, response);
    var x, y, z := StoppedOutmost(uuid), StoppedMiddle(uuid), StoppedInmost(uuid);
    hide Run, Execute, ThroughExec, Harmless, Live, Parked;
    LevelStops(z);
    LevelStops(y);
    LevelStops(x);
    assert Checked(0, x) by { assert Checked(0, z) && !AsksLater(z) && Due(y.executed) == [] && Checked(0, y); }
    CheckedIsHarmless(x, 0);
    ResumingIsExact(x);
  }
}
