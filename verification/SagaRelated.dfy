/**
  Which services a saga involves: its own, and those that the replies name. Replies are consumed in the
  order of the remote steps, each completed remote step consuming one.
 */
module SagaRelated {
  import opened Wrappers
  import opened SagaModel
  import opened SagaCompensation
  import SM = SagaManager
  import SP = SagaParticipants
  import SR = SagaResuming

  // ---------------------------------------------------------------- who was named

  /** How many remote steps were completed, at any depth: that many replies were consumed. */
  function Remotes<C>(steps: seq<StepExec<C>>): nat
    decreases steps
  {
    if steps == [] then 0 else Remotes(steps[..|steps| - 1]) + RemotesIn(steps[|steps| - 1])
  }

  function RemotesIn<C>(step: StepExec<C>): nat
    decreases step
  {
    match step.def
    case Local(_, _) => 0
    case Remote(_, _, _, _) => 1
    case Conditional(_, _) => if step.inner.Some? then Remotes(step.inner.value.executed) else 0
  }

  /**
    Each step is related to its own service, and each remote one also to the services named in the one
    reply it consumed; `used` are the replies in the order of the steps. Inner executions have the uuid
    and the user of the outer one.
   */
  predicate Related<C>(service: string, uuid: Uuid, user: Option<Uuid>, steps: seq<StepExec<C>>, used: seq<Response>)
    decreases steps
  {
    |used| == Remotes(steps) &&
    (steps != [] ==>
       var n := |steps| - 1;
       Related(service, uuid, user, steps[..n], used[..Remotes(steps[..n])]) &&
       RelatedStep(service, uuid, user, steps[n], used[Remotes(steps[..n])..]))
  }

  predicate RelatedStep<C>(service: string, uuid: Uuid, user: Option<Uuid>, step: StepExec<C>, used: seq<Response>)
    decreases step
  {
    match step.def
    case Local(_, _) => used == [] && step.related == {service}
    case Remote(_, _, _, _) => |used| == 1 && step.related == {service} + used[0].related
    case Conditional(_, _) =>
      if step.inner.None? then used == []
      else step.inner.value.uuid == uuid && step.inner.value.user == user && Related(service, uuid, user, step.inner.value.executed, used)
  }

  /** A paused remote step has asked and not heard yet; a paused conditional has consumed what its inner execution has. */
  predicate RelatedExec<C>(service: string, x: Exec<C>, used: seq<Response>)
    decreases x
  {
    Remotes(x.executed) <= |used| && Related(service, x.uuid, x.user, x.executed, used[..Remotes(x.executed)]) &&
    var rest := used[Remotes(x.executed)..];
    if x.paused.None? then rest == [] else RelatedPaused(service, x.uuid, x.user, x.paused.value, rest)
  }

  predicate RelatedPaused<C>(service: string, uuid: Uuid, user: Option<Uuid>, step: StepExec<C>, used: seq<Response>)
    decreases step
  {
    if step.def.Remote? then used == [] && step.related == {service}
    else
      step.def.Conditional? && step.inner.Some? && step.inner.value.uuid == uuid && step.inner.value.user == user &&
      RelatedExec(service, step.inner.value, used)
  }

  lemma {:induction false} RemotesAppend<C>(steps: seq<StepExec<C>>, last: StepExec<C>)
    ensures Remotes(steps + [last]) == Remotes(steps) + RemotesIn(last)
    ensures Remotes<C>([]) == 0
  {
  }

  lemma {:induction false} RelatedAppend<C>(service: string, uuid: Uuid, user: Option<Uuid>, steps: seq<StepExec<C>>, used: seq<Response>,
                                            last: StepExec<C>, more: seq<Response>)
    requires Related(service, uuid, user, steps, used) && RelatedStep(service, uuid, user, last, more)
    ensures Related(service, uuid, user, steps + [last], used + more)
  {
    hide RelatedStep;
    StepUses(service, uuid, user, last, more);
    RemotesAppend(steps, last);
    var all := steps + [last];
    assert all[..|all| - 1] == steps && all[|all| - 1] == last;
    assert (used + more)[..|used|] == used && (used + more)[|used|..] == more;
  }

  lemma {:induction false} StepUses<C>(service: string, uuid: Uuid, user: Option<Uuid>, step: StepExec<C>, used: seq<Response>)
    requires RelatedStep(service, uuid, user, step, used)
    ensures |used| == RemotesIn(step)
  {
  }

  lemma {:induction false} NothingRelated<C>(service: string, uuid: Uuid, user: Option<Uuid>)
    ensures Related<C>(service, uuid, user, [], [])
  {
  }

  // ---------------------------------------------------------------- rollbacks name nobody else

  lemma {:induction false} UndoneStepIsRelated<C>(env: Env<C>, uuid: Uuid, user: Option<Uuid>, step: StepExec<C>, context: C,
                                                  used: seq<Response>)
    requires RelatedStep(env.service, uuid, user, step, used)
    ensures RelatedStep(env.service, uuid, user, RollbackStep(env, step, context).step, used)
    decreases step, 0
  {
    hide RollbackList, Related;
    if step.def.Conditional? && step.inner.Some? { UndoneIsRelated(env, uuid, user, step.inner.value.executed, context, used); }
  }

  lemma {:induction false} UndoneIsRelated<C>(env: Env<C>, uuid: Uuid, user: Option<Uuid>, steps: seq<StepExec<C>>, context: C,
                                              used: seq<Response>)
    requires Related(env.service, uuid, user, steps, used)
    ensures Related(env.service, uuid, user, RollbackList(env, steps, context).steps, used)
    decreases steps, 0
  {
    hide RollbackStep, RelatedStep;
    if steps != [] {
      var n := |steps| - 1;
      var last := RollbackStep(env, steps[n], context);
      var before, after := used[..Remotes(steps[..n])], used[Remotes(steps[..n])..];
      UndoneStepIsRelated(env, uuid, user, steps[n], context, after);
      assert used == before + after;
      if last.result == RollbackRaised {
        RelatedAppend(env.service, uuid, user, steps[..n], before, last.step, after);
      } else {
        UndoneIsRelated(env, uuid, user, steps[..n], last.context, before);
        RelatedAppend(env.service, uuid, user, RollbackList(env, steps[..n], last.context).steps, before, last.step, after);
      }
    }
  }

  // ---------------------------------------------------------------- every call

  /** After a call that has consumed these replies: those beyond the completed steps went to the step that failed. */
  ghost predicate CallRelates<C>(service: string, uuid: Uuid, user: Option<Uuid>, r: ExecResult<C>, used: seq<Response>) {
    r.exec.uuid == uuid && r.exec.user == user && Remotes(r.exec.executed) <= |used| &&
    Related(service, uuid, user, r.exec.executed, used[..Remotes(r.exec.executed)]) &&
    (r.outcome == Completed || r.outcome == PausedRun ==> RelatedExec(service, r.exec, used)) &&
    (r.outcome == Completed ==> r.exec.paused.None?) && r.outcome in {Completed, Failed, PausedRun, RollbackFailed}
  }

  ghost predicate StepRelates<C>(service: string, uuid: Uuid, user: Option<Uuid>, r: StepResult<C>, used: seq<Response>) {
    (r.outcome.Done? ==> RelatedStep(service, uuid, user, r.step, used)) &&
    (r.outcome.StepPaused? ==> RelatedPaused(service, uuid, user, r.step, used))
  }

  lemma {:induction false} ConcludedRelates<C>(service: string, uuid: Uuid, user: Option<Uuid>, step: StepExec<C>, r: ExecResult<C>,
                                               used: seq<Response>)
    requires step.def.Conditional? && CallRelates(service, uuid, user, r, used)
    ensures StepRelates(service, uuid, user, Concluded(step, r), used)
  {
    hide Related, Remotes;
    if r.outcome == Completed { assert used[..Remotes(r.exec.executed)] == used; }
  }

  lemma {:induction false} SettleRelates<C>(env: Env<C>, x: Exec<C>, r: StepResult<C>, used: seq<Response>, more: seq<Response>)
    requires !r.outcome.Done? && Related(env.service, x.uuid, x.user, x.executed, used) && StepRelates(env.service, x.uuid, x.user, r, more)
    ensures CallRelates(env.service, x.uuid, x.user, Settle(env, x, r), used + more)
  {
    hide RollbackList, RelatedPaused, RelatedStep;
    var all := used + more;
    assert |used| == Remotes(x.executed);
    hide Related;
    assert all[..|used|] == used && all[|used|..] == more;
    if r.outcome.StepFailed? {
      UndoneIsRelated(env, x.uuid, x.user, x.executed, x.context, used);
      var undo := RollbackExec(env, x, x.context);
      assert Related(env.service, x.uuid, x.user, undo.exec.executed, used);
      SameUses(env.service, x.uuid, x.user, undo.exec.executed, used);
    }
  }

  lemma {:induction false} SameUses<C>(service: string, uuid: Uuid, user: Option<Uuid>, steps: seq<StepExec<C>>, used: seq<Response>)
    requires Related(service, uuid, user, steps, used)
    ensures |used| == Remotes(steps)
  {
  }

  lemma {:induction false} FreshRelates<C>(env: Env<C>, def: StepDef, uuid: Uuid, user: Option<Uuid>, context: C)
    ensures StepRelates(env.service, uuid, user, Fresh(env, def, uuid, user, context), [])
    decreases def, 0
  {
    hide RunPending, FirstHolding, Related;
    if def.Conditional? {
      var i := FirstHolding(env, def.ifThen, context, 0);
      if i.Some? || def.elseThen.Some? {
        var saga := if i.Some? then def.ifThen[i.value].saga else def.elseThen.value;
        assert i.Some? ==> def.ifThen[i.value] in def.ifThen;
        var x := NewExec(saga, uuid, user, context).(status := Running);
        NothingRelated<C>(env.service, uuid, user);
        PendingRelates(env, x, saga.steps, []);
        ConcludedRelates(env.service, uuid, user, NewStep<C>(def).(related := {env.service}), RunPending(env, x, saga.steps), []);
      }
    }
  }

  lemma {:induction false} PendingRelates<C>(env: Env<C>, x: Exec<C>, pending: seq<StepDef>, used: seq<Response>)
    requires Related(env.service, x.uuid, x.user, x.executed, used) && x.paused.None?
    ensures CallRelates(env.service, x.uuid, x.user, RunPending(env, x, pending), used)
    decreases pending, 0
  {
    hide Fresh, Settle, RelatedStep, RelatedPaused;
    SameUses(env.service, x.uuid, x.user, x.executed, used);
    hide Related;
    assert used[..|used|] == used && used[|used|..] == [] && used + [] == used;
    if pending != [] {
      FreshRelates(env, pending[0], x.uuid, x.user, x.context);
      var r := Fresh(env, pending[0], x.uuid, x.user, x.context);
      if r.outcome.Done? {
        RelatedAppend(env.service, x.uuid, x.user, x.executed, used, r.step, []);
        PendingRelates(env, Advance(x, r.step, r.outcome.context), pending[1..], used);
      } else {
        SettleRelates(env, x, r, used, []);
      }
    }
  }

  lemma {:induction false} AnswerRelates<C>(env: Env<C>, uuid: Uuid, user: Option<Uuid>, step: StepExec<C>, context: C, reply: Response)
    requires step.def.Remote? && RelatedPaused(env.service, uuid, user, step, [])
    ensures StepRelates(env.service, uuid, user, Answer(env, step, context, reply), [reply])
    ensures !Answer(env, step, context, reply).outcome.StepPaused?
  {
    hide RollbackStep;
  }

  lemma {:induction false} ResumeRelates<C>(env: Env<C>, uuid: Uuid, user: Option<Uuid>, step: StepExec<C>, context: C, reply: Response,
                                            used: seq<Response>)
    requires RelatedPaused(env.service, uuid, user, step, used) && Waiting(step) && TracksStep(step)
    ensures StepRelates(env.service, uuid, user, Resume(env, step, context, Some(reply)), used + [reply])
    decreases step, 1
  {
    hide Execute, Answer, RelatedExec, RelatedStep, Live, Tracks;
    if step.def.Conditional? {
      var inner := step.inner.value;
      OtherContext(env.service, inner, context, used);
      ExecuteRelates(env, inner.(context := context), inner, reply, used);
      ConcludedRelates(env.service, uuid, user, step, Execute(env, inner.(context := context), inner, Some(reply)), used + [reply]);
    } else {
      assert [] + [reply] == [reply];
      AnswerRelates(env, uuid, user, step, context, reply);
    }
  }

  lemma {:induction false} OtherContext<C>(service: string, x: Exec<C>, context: C, used: seq<Response>)
    requires RelatedExec(service, x, used)
    ensures RelatedExec(service, x.(context := context), used)
    ensures (Live(x) ==> Live(x.(context := context))) && (Tracks(x) ==> Tracks(x.(context := context)))
  {
  }

  lemma {:induction false} ExecuteRelates<C>(env: Env<C>, x: Exec<C>, bound: Exec<C>, reply: Response, used: seq<Response>)
    requires RelatedExec(env.service, x, used) && Live(x) && Tracks(x) && x.status == Paused && x.paused == bound.paused
    ensures CallRelates(env.service, x.uuid, x.user, Execute(env, x, bound, Some(reply)), used + [reply])
    decreases bound, 1
  {
    hide RunPending, Resume, Settle, Related, RelatedStep, RelatedPaused, Complete, Waiting, TracksStep;
    var running := x.(status := Running);
    var n := Remotes(x.executed);
    var before, rest := used[..n], used[n..];
    Unpaused(x);
    ResumeRelates(env, x.uuid, x.user, bound.paused.value, x.context, reply, rest);
    var r := Resume(env, bound.paused.value, x.context, Some(reply));
    assert used + [reply] == before + (rest + [reply]);
    if r.outcome.Done? {
      var next := Advance(running, r.step, r.outcome.context);
      RelatedAppend(env.service, x.uuid, x.user, x.executed, before, r.step, rest + [reply]);
      PendingRelates(env, next, Remaining(next), used + [reply]);
    } else {
      SettleRelates(env, running, r, before, rest + [reply]);
    }
  }

  // ---------------------------------------------------------------- whole runs

  /** The services that the first of these replies name. */
  predicate Named(replies: seq<Response>, count: nat, service: string) {
    exists i :: 0 <= i < count && i < |replies| && service in replies[i].related
  }

  /** At the end of a run the completed steps have consumed the first replies, one for each remote step, and are related accordingly. */
  ghost predicate RunRelates<C>(service: string, uuid: Uuid, user: Option<Uuid>, x: Exec<C>, replies: seq<Response>) {
    x.uuid == uuid && x.user == user && Remotes(x.executed) <= |replies| &&
    Related(service, uuid, user, x.executed, replies[..Remotes(x.executed)])
  }

  lemma {:induction false} LoopRelates<C>(env: Env<C>, r: ExecResult<C>, used: seq<Response>, replies: seq<Response>)
    requires r.outcome == PausedRun && RelatedExec(env.service, r.exec, used) && Live(r.exec) && Tracks(r.exec) && r.exec.status == Paused
    ensures RunRelates(env.service, r.exec.uuid, r.exec.user, SM.After(env, r, replies).exec, used + replies)
    decreases |replies|
  {
    hide Execute, Related, Live, Tracks, RelatedPaused, Remotes;
    if replies == [] {
      assert used + replies == used;
    } else {
      var reply, rest := replies[0], replies[1..];
      var q := Run(env, r.exec, Some(reply));
      ExecuteRelates(env, r.exec, r.exec, reply, used);
      SR.ExecuteLives(env, r.exec, r.exec, reply);
      ExecuteTracks(env, r.exec, r.exec, Some(reply));
      var now := used + [reply];
      assert used + replies == now + rest;
      if q.outcome == PausedRun {
        LoopRelates(env, q, now, rest);
      } else {
        var n := Remotes(q.exec.executed);
        assert (now + rest)[..n] == now[..n];
        LoopStops(env, r, q, reply, rest);
      }
    }
  }

  /** A call that does not pause is the last one. */
  lemma {:induction false} LoopStops<C>(env: Env<C>, r: ExecResult<C>, q: ExecResult<C>, reply: Response, rest: seq<Response>)
    requires r.outcome == PausedRun && r.exec.status == Paused && Run(env, r.exec, Some(reply)) == q
    requires q.outcome in {Completed, Failed, RollbackFailed}
    ensures SM.After(env, r, [reply] + rest).exec == q.exec
  {
    hide Run;
    assert ([reply] + rest)[1..] == rest && ([reply] + rest)[0] == reply;
    assert SM.After(env, q, rest).exec == q.exec;
    assert SM.Drive(env, r.exec, Some(reply), rest).exec == SM.After(env, q, rest).exec;
  }

  lemma {:induction false} RunOfSagaRelates<C>(env: Env<C>, saga: Saga, uuid: Uuid, user: Option<Uuid>, context: C,
                                               response: Option<Response>, replies: seq<Response>)
    requires ValidSaga(saga)
    ensures RunRelates(env.service, uuid, user, SM.Drive(env, NewExec(saga, uuid, user, context), response, replies).exec, replies)
  {
    hide RunPending, Related, Live, Tracks, RelatedPaused, Remotes;
    var x := NewExec(saga, uuid, user, context);
    var running := x.(status := Running);
    assert saga.steps[0..] == saga.steps;
    var r := RunPending(env, running, saga.steps);
    assert Run(env, x, response) == r;
    NewExecStarts(saga, uuid, user, context);
    assert running.(paused := None) == running;
    SR.PendingLives(env, running, saga.steps);
    RunPendingTracks(env, running, saga.steps);
    NothingRelated<C>(env.service, uuid, user);
    PendingRelates(env, running, saga.steps, []);
    if r.outcome == PausedRun {
      LoopRelates(env, r, [], replies);
      assert [] + replies == replies;
    } else {
      assert replies[..0] == [][..0];
    }
  }

  // ---------------------------------------------------------------- the participants

  /** A local or remote step was completed, at any depth. */
  predicate Worked<C>(steps: seq<StepExec<C>>)
    decreases steps
  {
    steps != [] && (Worked(steps[..|steps| - 1]) || WorkedStep(steps[|steps| - 1]))
  }

  predicate WorkedStep<C>(step: StepExec<C>)
    decreases step
  {
    !step.def.Conditional? || (step.inner.Some? && Worked(step.inner.value.executed))
  }

  lemma {:induction false} TookPartAppend<C>(uuid: Uuid, steps: seq<StepExec<C>>, pair: SP.Pair)
    requires steps != []
    ensures SP.TookPart(uuid, steps, pair) <==>
            SP.TookPart(uuid, steps[..|steps| - 1], pair) || SP.TookPartStep(uuid, steps[|steps| - 1], pair)
  {
    hide SP.TookPartStep;
    var n := |steps| - 1;
    if SP.TookPart(uuid, steps[..n], pair) {
      var i :| 0 <= i < n && SP.TookPartStep(uuid, steps[..n][i], pair);
      assert SP.TookPartStep(uuid, steps[i], pair);
    }
    if SP.TookPart(uuid, steps, pair) && !SP.TookPartStep(uuid, steps[n], pair) {
      var i :| 0 <= i < |steps| && SP.TookPartStep(uuid, steps[i], pair);
      assert SP.TookPartStep(uuid, steps[..n][i], pair);
    }
  }

  predicate NamedIn(replies: seq<Response>, service: string) {
    exists i :: 0 <= i < |replies| && service in replies[i].related
  }

  lemma {:induction false} NamedSplits(a: seq<Response>, b: seq<Response>, service: string)
    ensures NamedIn(a + b, service) <==> NamedIn(a, service) || NamedIn(b, service)
  {
    if NamedIn(a, service) {
      var i :| 0 <= i < |a| && service in a[i].related;
      assert service in (a + b)[i].related;
    }
    if NamedIn(b, service) {
      var i :| 0 <= i < |b| && service in b[i].related;
      assert service in (a + b)[|a| + i].related;
    }
  }

  lemma {:induction false} RelatedTookPart<C>(service: string, uuid: Uuid, user: Option<Uuid>, steps: seq<StepExec<C>>, used: seq<Response>,
                                            pair: SP.Pair)
    requires Related(service, uuid, user, steps, used)
    ensures SP.TookPart(uuid, steps, pair) <==>
            pair.uuid == uuid && ((pair.service == service && Worked(steps)) || NamedIn(used, pair.service))
    decreases steps
  {
    hide RelatedStep, SP.TookPartStep, WorkedStep;
    if steps != [] {
      var n := |steps| - 1;
      var before, after := used[..Remotes(steps[..n])], used[Remotes(steps[..n])..];
      assert used == before + after;
      TookPartAppend(uuid, steps, pair);
      RelatedTookPart(service, uuid, user, steps[..n], before, pair);
      RelatedStepTookPart(service, uuid, user, steps[n], after, pair);
      NamedSplits(before, after, pair.service);
    }
  }

  lemma {:induction false} RelatedStepTookPart<C>(service: string, uuid: Uuid, user: Option<Uuid>, step: StepExec<C>, used: seq<Response>,
                                            pair: SP.Pair)
    requires RelatedStep(service, uuid, user, step, used)
    ensures SP.TookPartStep(uuid, step, pair) <==>
            pair.uuid == uuid && ((pair.service == service && WorkedStep(step)) || NamedIn(used, pair.service))
    decreases step
  {
    hide Related, SP.TookPart, Worked;
    if step.def.Conditional? {
      if step.inner.Some? { RelatedTookPart(service, uuid, user, step.inner.value.executed, used, pair); }
    } else if step.def.Remote? {
      assert NamedIn(used, pair.service) <==> pair.service in used[0].related by {
        if pair.service in used[0].related { assert 0 < |used|; }
      }
    }
  }

  /**
    The participants of a saga, from the replies it was given. Whatever it came to, the completed steps have consumed
    the first replies, one for each remote step among them, and the list of transactions holds exactly the pairs of the
    saga's uuid with the services that these replies name and, if any step was completed, with its own service.
   */
  lemma {:induction false} ParticipantsOfRun<C>(env: Env<C>, saga: Saga, uuid: Uuid, user: Option<Uuid>, context: C,
                                                response: Option<Response>, replies: seq<Response>, list: seq<SP.Pair>)
    requires ValidSaga(saga)
    requires var x := SM.Drive(env, NewExec(saga, uuid, user, context), response, replies).exec;
             forall pair :: pair in list <==> SP.TookPart(uuid, x.executed, pair)
    ensures var x := SM.Drive(env, NewExec(saga, uuid, user, context), response, replies).exec;
            Remotes(x.executed) <= |replies| &&
            forall pair: SP.Pair :: pair in list <==>
              pair.uuid == uuid &&
              ((pair.service == env.service && Worked(x.executed)) || Named(replies, Remotes(x.executed), pair.service))
  {
    hide SM.Drive, Related, SP.TookPart, Remotes, Worked;
    var x := SM.Drive(env, NewExec(saga, uuid, user, context), response, replies).exec;
    RunOfSagaRelates(env, saga, uuid, user, context, response, replies);
    forall pair: SP.Pair
      ensures pair in list <==>
              pair.uuid == uuid &&
              ((pair.service == env.service && Worked(x.executed)) || Named(replies, Remotes(x.executed), pair.service))
    {
      RelatedTookPart(env.service, uuid, user, x.executed, replies[..Remotes(x.executed)], pair);
      FirstAreNamed(replies, Remotes(x.executed), pair.service);
    }
  }

  lemma {:induction false} FirstAreNamed(replies: seq<Response>, n: nat, service: string)
    requires n <= |replies|
    ensures NamedIn(replies[..n], service) <==> Named(replies, n, service)
  {
    if Named(replies, n, service) {
      var i :| 0 <= i < n && i < |replies| && service in replies[i].related;
      assert service in replies[..n][i].related;
    }
  }
}
