/**
  The loop of the saga manager that executes, waits for a reply and executes again, against an
  interpreter that never stops.
 */
module SagaManager {
  import opened Wrappers
  import opened SagaModel
  import opened SagaCompensation

  // ---------------------------------------------------------------- the driving loop

  /** The loop ends, or the broker gives no more replies, or `execute` raises. */
  datatype Ending = Ended | ReplyLost | Raised(outcome: Outcome)

  datatype Driven<C> = Driven(exec: Exec<C>, ending: Ending, trace: seq<Call<C>>, failing: seq<StepExec<C>>, calls: nat)

  /** `SagaManager._run_with_pause_on_memory`; `replies` are the answers the broker will hand over. */
  function Drive<C>(env: Env<C>, x: Exec<C>, response: Option<Response>, replies: seq<Response>): Driven<C>
    decreases |replies|, 1
  {
    if x.status != Created && x.status != Paused then Driven(x, Ended, [], [], 0)
    else var d := After(env, Run(env, x, response), replies); d.(calls := d.calls + 1)
  }

  /** The rest of the loop once `execute` has come back. */
  function After<C>(env: Env<C>, r: ExecResult<C>, replies: seq<Response>): Driven<C>
    decreases |replies|, 0
  {
    match r.outcome
    case Completed => Driven(r.exec, Ended, r.trace, [], 0)
    case PausedRun =>
      if replies == [] then Driven(r.exec.(status := Errored), ReplyLost, r.trace, [], 0)
      else var d := Drive(env, r.exec, Some(replies[0]), replies[1..]); d.(trace := r.trace + d.trace)
    case _ => Driven(r.exec, Raised(r.outcome), r.trace, r.failing, 0)
  }

  /** What a caller of the manager gets: `ok` is whether nothing was raised. */
  datatype Managed<C> = Managed(exec: Exec<C>, ok: bool, ending: Ending, trace: seq<Call<C>>, failing: seq<StepExec<C>>, calls: nat)

  /** The loop and, if it ends, the commit. */
  function Manage<C>(env: Env<C>, x: Exec<C>, response: Option<Response>, replies: seq<Response>, autocommit: bool,
                     committed: bool): Managed<C> {
    var d := Drive(env, x, response, replies);
    if autocommit && d.ending.Ended? then
      var c := Commit(env, d.exec, committed);
      Managed(c.exec, c.ok, d.ending, d.trace + c.trace, d.failing, d.calls)
    else Managed(d.exec, d.ending.Ended?, d.ending, d.trace, d.failing, d.calls)
  }

  // ---------------------------------------------------------------- compensation over a whole run

  ghost predicate RunKeeps<C(!new)>(env: Env<C>, d: Driven<C>) {
    Tracks(d.exec) &&
    match d.ending
    case Ended => Live(d.exec) && d.exec.status == Finished && FailureOps(d.trace) == []
    case ReplyLost => d.exec.status == Errored && FailureOps(d.trace) == []
    case Raised(outcome) =>
      (outcome == Failed || (outcome == RollbackFailed && !Willing(env, d.exec.def))) &&
      Path(d.failing, d.exec) && FailureOps(d.trace) == DueOnFailure(d.failing, d.exec.executed)
  }

  /** Over all the calls of a run together, the compensations are exactly those that are due. */
  lemma {:induction false} RunCompensates<C(!new)>(env: Env<C>, x: Exec<C>, response: Option<Response>, replies: seq<Response>)
    requires Live(x) && Tracks(x) && (x.status == Created || x.status == Paused)
    requires Sheltered(env, x.def)
    ensures RunKeeps(env, Drive(env, x, response, replies))
    decreases |replies|
  {
    hide Execute, Live, Tracks, Willing, Sheltered, Path, DueOnFailure, FailureOps;
    ExecuteCalls(env, x, x, response);
    ExecuteTracks(env, x, x, response);
    var r := Run(env, x, response);
    if r.outcome == PausedRun {
      if replies == [] {
        ErroringKeepsTracks(r.exec);
      } else {
        RunCompensates(env, r.exec, Some(replies[0]), replies[1..]);
        FailureOpsAppend(r.trace, Drive(env, r.exec, Some(replies[0]), replies[1..]).trace);
      }
    }
  }

  /** With the commit: it succeeds without a compensation, or every completed step of the finished saga is compensated. */
  lemma {:induction false} CommitCompensates<C(!new)>(env: Env<C>, x: Exec<C>, response: Option<Response>, replies: seq<Response>,
                                                      committed: bool)
    requires Live(x) && Tracks(x) && (x.status == Created || x.status == Paused)
    requires Sheltered(env, x.def)
    ensures var m := Manage(env, x, response, replies, true, committed);
            m.ending.Ended? ==>
              |m.exec.executed| == |m.exec.def.steps| && m.ok == committed && m.exec.status == (if committed then Finished else Errored) &&
              FailureOps(m.trace) == if committed then [] else Due(m.exec.executed)
  {
    hide Drive, Tracks, Willing, Sheltered, Path, DueOnFailure, FailureOps, RollbackExec, Due, Complete;
    var d := Drive(env, x, response, replies);
    RunCompensates(env, x, response, replies);
    if d.ending.Ended? {
      DriveKeepsDef(env, x, response, replies);
      var c := Commit(env, d.exec, committed);
      FailureOpsAppend(d.trace, c.trace);
      NothingToUndo(env, x.context);
      if !committed {
        FailedCommitCalls(env, d.exec);
        RollbackExecCalls(env, d.exec, d.exec.context);
        RollbackExecTracks(env, d.exec, d.exec.context);
      }
    }
  }

  lemma {:induction false} DriveKeepsDef<C>(env: Env<C>, x: Exec<C>, response: Option<Response>, replies: seq<Response>)
    requires Tracks(x)
    ensures Drive(env, x, response, replies).exec.def == x.def
    decreases |replies|
  {
    hide Execute, Tracks;
    ExecuteTracks(env, x, x, response);
    var r := Run(env, x, response);
    if r.outcome == PausedRun && replies != [] { DriveKeepsDef(env, r.exec, Some(replies[0]), replies[1..]); }
  }

  lemma {:induction false} ErroringKeepsTracks<C>(x: Exec<C>)
    requires Tracks(x)
    ensures Tracks(x.(status := Errored))
  {
  }

  // ---------------------------------------------------------------- the uninterrupted interpreter

  /** What a run shows: the context, how it ended, the calls it made and how many steps completed. */
  datatype Seen<C> = Seen(context: C, ending: Ending, trace: seq<Call<C>>, completed: nat)

  datatype Undoing<C> = Undoing(context: C, raised: bool, trace: seq<Call<C>>)

  /** Compensates the given steps, last first, each whatever became of the others. */
  function Compensate<C>(env: Env<C>, done: seq<StepDef>, context: C): Undoing<C>
    decreases |done|
  {
    if done == [] then Undoing(context, false, [])
    else
      var def := done[|done| - 1];
      var before := done[..|done| - 1];
      if def.Conditional? || def.onFailure.None? then Compensate(env, before, context)
      else
        var op := def.onFailure.value;
        var context' := if def.Local? && env.undoLocal(op, context).Some? then env.undoLocal(op, context).value else context;
        var raised := if def.Local? then env.undoLocal(op, context).None? else !env.undoRequest(op, context);
        var rest := Compensate(env, before, context');
        Undoing(rest.context, raised || rest.raised, [Call(OnFailure, op, context)] + rest.trace)
  }

  function GiveUp<C>(env: Env<C>, done: seq<StepDef>, context: C, trace: seq<Call<C>>): Seen<C> {
    var undo := Compensate(env, done, context);
    Seen(undo.context, Raised(if undo.raised then RollbackFailed else Failed), trace + undo.trace, |done|)
  }

  function Before<C>(trace: seq<Call<C>>, s: Seen<C>): Seen<C> { s.(trace := trace + s.trace) }

  /** Runs local and remote steps from left to right; a remote step takes the next reply. */
  function Interpret<C>(env: Env<C>, done: seq<StepDef>, steps: seq<StepDef>, context: C, replies: seq<Response>): Seen<C>
    decreases |steps|
  {
    if steps == [] || steps[0].Conditional? || steps[0].onExecute.None? then Seen(context, Ended, [], |done|)
    else
      var def := steps[0];
      var op := def.onExecute.value;
      var start := [Call(OnExecute, op, context)];
      if def.Local? then
        var result := env.local(op, context);
        if result.None? then GiveUp(env, done, context, start)
        else Before(start, Interpret(env, done + [def], steps[1..], result.value, replies))
      else if !env.request(op, context) then GiveUp(env, done, context, start)
      else if replies == [] then Seen(context, ReplyLost, start, |done|)
      else
        var reply := replies[0];
        var handler := if reply.status == Success then def.onSuccess else def.onError;
        if reply.status == SystemError then GiveUp(env, done, context, start)
        else if handler.None? then Before(start, Interpret(env, done + [def], steps[1..], context, replies[1..]))
        else
          var trace := start + [Call(if reply.status == Success then OnSuccess else OnError, handler.value, context)];
          var result := env.handle(handler.value, context, reply);
          if result.Some? then Before(trace, Interpret(env, done + [def], steps[1..], result.value, replies[1..]))
          else
            var own := if def.onFailure.Some? then [Call(OnFailure, def.onFailure.value, context)] else [];
            GiveUp(env, done, context, trace + own)
  }

  // ---------------------------------------------------------------- pausing is not seen

  function Defs<C>(steps: seq<StepExec<C>>): (r: seq<StepDef>)
    ensures |r| == |steps|
  {
    seq(|steps|, i requires 0 <= i < |steps| => steps[i].def)
  }

  function View<C>(d: Driven<C>): Seen<C> { Seen(d.exec.context, d.ending, d.trace, |d.exec.executed|) }

  lemma {:induction false} LastIsCompensated<C>(env: Env<C>, step: StepExec<C>, context: C)
    requires Complete(step) && !step.def.Conditional?
    ensures
      var last := RollbackStep(env, step, context);
      if step.def.onFailure.None? then last.context == context && last.result == Undone && last.trace == []
      else
        var op := step.def.onFailure.value;
        var undone := env.undoLocal(op, context);
        last.context == (if step.def.Local? && undone.Some? then undone.value else context) &&
        last.trace == [Call(OnFailure, op, context)] &&
        last.result == if (if step.def.Local? then undone.None? else !env.undoRequest(op, context)) then StepRaised else Undone
  {
    hide Live;
  }

  lemma {:induction false} RollbackIsCompensate<C>(env: Env<C>, steps: seq<StepExec<C>>, context: C)
    requires FlatSteps(steps) && forall i :: 0 <= i < |steps| ==> Complete(steps[i])
    ensures var r := RollbackList(env, steps, context);
            !r.aborted && Undoing(r.context, r.raised, r.trace) == Compensate(env, Defs(steps), context)
    decreases |steps|
  {
    hide Complete, RollbackStep;
    if steps != [] {
      var n := |steps| - 1;
      var last := RollbackStep(env, steps[n], context);
      RollbackIsCompensate(env, steps[..n], last.context);
      assert Defs(steps)[..n] == Defs(steps[..n]);
      LastIsCompensated(env, steps[n], context);
    }
  }

  ghost predicate Underway<C>(x: Exec<C>) {
    Live(x) && Tracks(x) && x.status == Running && Flat(x.def)
  }

  lemma {:induction false} AfterPrefix<C>(env: Env<C>, r: ExecResult<C>, trace: seq<Call<C>>, replies: seq<Response>)
    ensures View(After(env, r.(trace := trace + r.trace), replies)) == Before(trace, View(After(env, r, replies)))
    ensures After(env, r.(trace := trace + r.trace), replies).calls == After(env, r, replies).calls
  {
  }

  lemma {:induction false} FailingIsGivingUp<C>(env: Env<C>, x: Exec<C>, r: StepResult<C>, replies: seq<Response>)
    requires Underway(x.(paused := None)) && r.outcome == StepFailed
    ensures View(After(env, Settle(env, x, r), replies)) == GiveUp(env, Defs(x.executed), x.context, r.trace)
  {
    hide Complete, RollbackList, Drive;
    FlatExecuted(x.(paused := None));
    RollbackIsCompensate(env, x.executed, x.context);
  }

  lemma {:induction false} FlatExecuted<C>(x: Exec<C>)
    requires Tracks(x) && Flat(x.def)
    ensures FlatSteps(x.executed)
  {
  }

  /** A step that completed: the execution is under way with one step less to go. */
  lemma {:induction false} Onward<C(!new)>(env: Env<C>, x: Exec<C>, step: StepExec<C>, context: C)
    requires Underway(x) && Remaining(x) != [] && Complete(step) && TracksStep(step) && step.def == Remaining(x)[0]
    ensures var next := Advance(x, step, context);
            Underway(next) && Remaining(next) == Remaining(x)[1..] && Defs(next.executed) == Defs(x.executed) + [step.def]
  {
  }

  /** The reply that a paused execution is waiting for. */
  lemma {:induction false} ReplyArrives<C>(env: Env<C>, x: Exec<C>, waiting: StepExec<C>, reply: Response)
    requires x.status == Running && waiting.def.Remote?
    ensures var parked := x.(paused := Some(waiting), status := Paused);
            var r := Answer(env, waiting, x.context, reply);
            if r.outcome.Done? then
              var next := Advance(x, r.step, r.outcome.context);
              var rest := RunPending(env, next, Remaining(next));
              Run(env, parked, Some(reply)) == rest.(trace := r.trace + rest.trace)
            else Run(env, parked, Some(reply)) == Settle(env, x.(paused := Some(waiting)), r)
  {
    hide RunPending, Answer, Settle;
    var running := x.(paused := Some(waiting));
    assert running == x.(paused := Some(waiting), status := Paused).(status := Running);
    assert Resume(env, waiting, x.context, Some(reply)) == Answer(env, waiting, x.context, reply);
    var r := Answer(env, waiting, x.context, reply);
    assert r.outcome.Done? ==> Advance(running, r.step, r.outcome.context) == Advance(x, r.step, r.outcome.context);
  }

  /** The next step of an execution under way is local or remote and has something to execute. */
  lemma {:induction false} NextStep<C>(x: Exec<C>)
    requires Underway(x) && Remaining(x) != []
    ensures var def := Remaining(x)[0]; ValidStep(def) && !def.Conditional? && def.onExecute.Some?
    ensures Remaining(x)[0] == x.def.steps[|x.executed|] && x.status == Running && x.paused.None?
  {
  }

  lemma {:induction false} AnswerKeeps<C(!new)>(env: Env<C>, x: Exec<C>, waiting: StepExec<C>, reply: Response)
    requires Underway(x) && Remaining(x) != [] && waiting.def == Remaining(x)[0] && waiting.def.Remote? && Waiting(waiting) &&
             TracksStep(waiting)
    ensures var r := Answer(env, waiting, x.context, reply);
            (r.outcome.Done? || r.outcome.StepFailed?) && TracksStep(r.step) && r.step.def == waiting.def &&
              (r.outcome.Done? ==> Complete(r.step))
  {
    hide RollbackStep, Tracks, Live;
    AnswerCalls(env, waiting, x.context, reply);
    ResumeTracks(env, waiting, x.context, Some(reply));
  }

  /** The loop shows what the interpreter shows, from here on. */
  ghost predicate Same<C>(env: Env<C>, x: Exec<C>, replies: seq<Response>) {
    View(After(env, RunPending(env, x, Remaining(x)), replies)) == Interpret(env, Defs(x.executed), Remaining(x), x.context, replies)
  }

  lemma {:induction false} LocalSame<C(!new)>(env: Env<C>, x: Exec<C>, replies: seq<Response>)
    requires Underway(x) && Remaining(x) != [] && Remaining(x)[0].Local?
    requires var r := Fresh(env, Remaining(x)[0], x.uuid, x.user, x.context);
             r.outcome.Done? ==> Same(env, Advance(x, r.step, r.outcome.context), replies)
    ensures Same(env, x, replies)
  {
    hide Underway, Remaining, Complete, Waiting, TracksStep, GiveUp, Defs, Drive, After;
    NextStep(x);
    var def := Remaining(x)[0];
    FreshCalls(env, def, x.uuid, x.user, x.context);
    FreshTracks(env, def, x.uuid, x.user, x.context);
    var r := Fresh(env, def, x.uuid, x.user, x.context);
    if r.outcome.Done? {
      Onward(env, x, r.step, r.outcome.context);
      var next := Advance(x, r.step, r.outcome.context);
      AfterPrefix(env, RunPending(env, next, Remaining(next)), r.trace, replies);
    } else {
      assert x.(paused := None) == x;
      FailingIsGivingUp(env, x, r, replies);
    }
  }

  /** What a request leaves behind. */
  lemma {:induction false} RequestMade<C(!new)>(env: Env<C>, x: Exec<C>)
    requires Underway(x) && Remaining(x) != [] && Remaining(x)[0].Remote?
    ensures var def := Remaining(x)[0];
            var r := Fresh(env, def, x.uuid, x.user, x.context);
            def.onExecute.Some? && r.trace == [Call(OnExecute, def.onExecute.value, x.context)] &&
            r.outcome == (if env.request(def.onExecute.value, x.context) then StepPaused else StepFailed) &&
            (r.outcome == StepPaused ==> r.step.def == def && Waiting(r.step) && TracksStep(r.step))
  {
    hide Underway, Remaining;
    NextStep(x);
  }

  lemma {:induction false} Parked<C>(env: Env<C>, x: Exec<C>, r: StepResult<C>, replies: seq<Response>)
    requires x.status == Running && r.outcome == StepPaused && replies != []
    ensures var parked := x.(paused := Some(r.step), status := Paused);
            View(After(env, Settle(env, x, r), replies)) == Before(r.trace,
                                                                   View(After(env, Run(env, parked, Some(replies[0])), replies[1..]))) &&
            After(env, Settle(env, x, r), replies).calls == After(env, Run(env, parked, Some(replies[0])), replies[1..]).calls + 1
  {
  }

  lemma {:induction false} GiveUpLater<C>(env: Env<C>, done: seq<StepDef>, context: C, first: seq<Call<C>>, rest: seq<Call<C>>)
    ensures Before(first, GiveUp(env, done, context, rest)) == GiveUp(env, done, context, first + rest)
    ensures first + [] == first
  {
  }

  /** The calls of an answer that fails: none, or its handler and then the step's own compensation. */
  lemma {:induction false} FailedAnswer<C(!new)>(env: Env<C>, step: StepExec<C>, context: C, reply: Response)
    requires step.def.Remote? && Waiting(step) && Answer(env, step, context, reply).outcome == StepFailed
    ensures var handler := if reply.status == Success then step.def.onSuccess else step.def.onError;
            var own := if step.def.onFailure.Some? then [Call(OnFailure, step.def.onFailure.value, context)] else [];
            if reply.status == SystemError then Answer(env, step, context, reply).trace == []
            else
              handler.Some? && env.handle(handler.value, context, reply).None? &&
              Answer(env, step, context, reply).trace == [Call(if reply.status == Success then OnSuccess else OnError, handler.value,
                                                               context)] + own
  {
  }

  lemma {:induction false} AnsweredSame<C(!new)>(env: Env<C>, x: Exec<C>, waiting: StepExec<C>, replies: seq<Response>)
    requires Underway(x) && Remaining(x) != [] && waiting.def == Remaining(x)[0] && waiting.def.Remote? && Waiting(waiting) &&
             TracksStep(waiting)
    requires replies != [] && env.request(waiting.def.onExecute.value, x.context)
    requires var r := Answer(env, waiting, x.context, replies[0]);
             r.outcome.Done? ==> Same(env, Advance(x, r.step, r.outcome.context), replies[1..])
    ensures Before([Call(OnExecute, waiting.def.onExecute.value, x.context)],
                   View(After(env, Run(env, x.(paused := Some(waiting), status := Paused), Some(replies[0])), replies[1..])))
            == Interpret(env, Defs(x.executed), Remaining(x), x.context, replies)
  {
    hide Underway, Remaining, Complete, Waiting, TracksStep, GiveUp, Defs, Drive, Run, After, RunPending;
    NextStep(x);
    ReplyArrives(env, x, waiting, replies[0]);
    AnswerKeeps(env, x, waiting, replies[0]);
    var r := Answer(env, waiting, x.context, replies[0]);
    if r.outcome.Done? {
      Onward(env, x, r.step, r.outcome.context);
      var next := Advance(x, r.step, r.outcome.context);
      AfterPrefix(env, RunPending(env, next, Remaining(next)), r.trace, replies[1..]);
    } else {
      assert x.(paused := Some(waiting)).(paused := None) == x;
      FailingIsGivingUp(env, x.(paused := Some(waiting)), r, replies[1..]);
      FailedAnswer(env, waiting, x.context, replies[0]);
      var handler := if replies[0].status == Success then waiting.def.onSuccess else waiting.def.onError;
      var own := if waiting.def.onFailure.Some? then [Call(OnFailure, waiting.def.onFailure.value, x.context)] else [];
      var start := [Call(OnExecute, waiting.def.onExecute.value, x.context)];
      if replies[0].status != SystemError {
        var call := [Call(if replies[0].status == Success then OnSuccess else OnError, handler.value, x.context)];
        assert start + (call + own) == (start + call) + own;
      }
      GiveUpLater(env, Defs(x.executed), x.context, start, r.trace);
    }
  }

  lemma {:induction false} RemoteSame<C(!new)>(env: Env<C>, x: Exec<C>, replies: seq<Response>)
    requires Underway(x) && Remaining(x) != [] && Remaining(x)[0].Remote?
    requires var r := Fresh(env, Remaining(x)[0], x.uuid, x.user, x.context);
             r.outcome.StepPaused? && replies != [] ==>
               var a := Answer(env, r.step, x.context, replies[0]);
               a.outcome.Done? ==> Same(env, Advance(x, a.step, a.outcome.context), replies[1..])
    ensures Same(env, x, replies)
  {
    hide Underway, Remaining, Complete, Waiting, TracksStep, GiveUp, Defs, Drive, Answer, Run, Fresh;
    NextStep(x);
    RequestMade(env, x);
    var r := Fresh(env, Remaining(x)[0], x.uuid, x.user, x.context);
    if r.outcome == StepFailed {
      assert x.(paused := None) == x;
      FailingIsGivingUp(env, x, r, replies);
    } else if replies != [] {
      Parked(env, x, r, replies);
      AnsweredSame(env, x, r.step, replies);
    }
  }

  /** From any point under way, the manager's loop shows what the interpreter shows. */
  lemma {:induction false} Transparent<C(!new)>(env: Env<C>, x: Exec<C>, replies: seq<Response>)
    requires Underway(x)
    ensures Same(env, x, replies)
    decreases |Remaining(x)|
  {
    hide Underway, Complete, Waiting, TracksStep, GiveUp, Answer, Fresh, Drive;
    var pending := Remaining(x);
    if pending == [] {
    } else {
      NextStep(x);
      var r := Fresh(env, pending[0], x.uuid, x.user, x.context);
      FreshCalls(env, pending[0], x.uuid, x.user, x.context);
      FreshTracks(env, pending[0], x.uuid, x.user, x.context);
      if pending[0].Local? {
        if r.outcome.Done? {
          Onward(env, x, r.step, r.outcome.context);
          Transparent(env, Advance(x, r.step, r.outcome.context), replies);
        }
        LocalSame(env, x, replies);
      } else {
        RequestMade(env, x);
        if r.outcome.StepPaused? && replies != [] {
          AnswerKeeps(env, x, r.step, replies[0]);
          var a := Answer(env, r.step, x.context, replies[0]);
          if a.outcome.Done? {
            Onward(env, x, a.step, a.outcome.context);
            Transparent(env, Advance(x, a.step, a.outcome.context), replies[1..]);
          }
        }
        RemoteSame(env, x, replies);
      }
    }
  }

  /** Pausing and resuming is not seen: a saga of local and remote steps runs as if it never stopped. */
  lemma {:induction false} PauseIsTransparent<C(!new)>(env: Env<C>, saga: Saga, uuid: Uuid, user: Option<Uuid>, context: C,
                                                       response: Option<Response>, replies: seq<Response>)
    requires ValidSaga(saga) && Flat(saga)
    ensures View(Drive(env, NewExec(saga, uuid, user, context), response, replies)) == Interpret(env, [], saga.steps, context, replies)
  {
    hide Live, Tracks, After, RunPending, Interpret;
    NewExecStarts(saga, uuid, user, context);
    var x := NewExec(saga, uuid, user, context).(status := Running);
    Transparent(env, x, replies);
    assert Remaining(NewExec(saga, uuid, user, context)) == Remaining(x) == saga.steps;
    assert Defs(x.executed) == [];
  }

  // ---------------------------------------------------------------- every request once

  function ExecuteOps<C>(trace: seq<Call<C>>): seq<Op> {
    if trace == [] then []
    else (if trace[0].kind == OnExecute then [trace[0].op] else []) + ExecuteOps(trace[1..])
  }

  function OpsOf(steps: seq<StepDef>): seq<Op> {
    if steps == [] then []
    else (if steps[0].Conditional? || steps[0].onExecute.None? then [] else [steps[0].onExecute.value]) + OpsOf(steps[1..])
  }

  lemma {:induction false} ExecuteOpsAppend<C>(a: seq<Call<C>>, b: seq<Call<C>>)
    ensures ExecuteOps(a + b) == ExecuteOps(a) + ExecuteOps(b)
  {
    if a == [] {
      assert a + b == b;
    } else {
      ExecuteOpsAppend(a[1..], b);
      var head := if a[0].kind == OnExecute then [a[0].op] else [];
      assert (a + b)[1..] == a[1..] + b && (a + b)[0] == a[0];
      assert head + (ExecuteOps(a[1..]) + ExecuteOps(b)) == (head + ExecuteOps(a[1..])) + ExecuteOps(b);
    }
  }

  lemma {:induction false} ExecuteOpsOne<C>(call: Call<C>)
    ensures ExecuteOps([call]) == if call.kind == OnExecute then [call.op] else []
    ensures ExecuteOps<C>([]) == []
  {
  }

  lemma {:induction false} CompensateExecutesNothing<C>(env: Env<C>, done: seq<StepDef>, context: C)
    ensures ExecuteOps(Compensate(env, done, context).trace) == []
    decreases |done|
  {
    if done != [] {
      var def := done[|done| - 1];
      var before := done[..|done| - 1];
      if def.Conditional? || def.onFailure.None? {
        CompensateExecutesNothing(env, before, context);
      } else {
        var op := def.onFailure.value;
        var context' := if def.Local? && env.undoLocal(op, context).Some? then env.undoLocal(op, context).value else context;
        CompensateExecutesNothing(env, before, context');
        ExecuteOpsAppend([Call(OnFailure, op, context)], Compensate(env, before, context').trace);
        ExecuteOpsOne(Call(OnFailure, op, context));
      }
    }
  }

  /** The steps that were started: those completed and, unless all are, the one that stopped the run. */
  function Started<C>(s: Seen<C>, done: nat, steps: seq<StepDef>): seq<StepDef> {
    if done <= s.completed < done + |steps| then steps[..s.completed - done + 1] else steps
  }

  ghost predicate OncePerStart<C>(s: Seen<C>, done: nat, steps: seq<StepDef>) {
    done <= s.completed <= done + |steps| && (s.ending == Ended <==> s.completed == done + |steps|) &&
    ExecuteOps(s.trace) == OpsOf(Started(s, done, steps))
  }

  ghost predicate Plain(steps: seq<StepDef>) {
    forall i :: 0 <= i < |steps| ==> !steps[i].Conditional? && steps[i].onExecute.Some?
  }

  lemma {:induction false} StopsHere<C>(env: Env<C>, done: seq<StepDef>, steps: seq<StepDef>, s: Seen<C>)
    requires Plain(steps) && steps != [] && s.completed == |done| && s.ending != Ended
    requires ExecuteOps(s.trace) == [steps[0].onExecute.value]
    ensures OncePerStart(s, |done|, steps)
  {
  }

  lemma {:induction false} GoesOn<C>(env: Env<C>, done: seq<StepDef>, steps: seq<StepDef>, trace: seq<Call<C>>, s: Seen<C>)
    requires Plain(steps) && steps != [] && OncePerStart(s, |done| + 1, steps[1..])
    requires ExecuteOps(trace) == [steps[0].onExecute.value]
    ensures OncePerStart(Before(trace, s), |done|, steps)
  {
    ExecuteOpsAppend(trace, s.trace);
    var started := Started(Before(trace, s), |done|, steps);
    assert started[0] == steps[0] && started[1..] == Started(s, |done| + 1, steps[1..]);
  }

  lemma {:induction false} GivesUpHere<C>(env: Env<C>, done: seq<StepDef>, steps: seq<StepDef>, context: C, trace: seq<Call<C>>)
    requires Plain(steps) && steps != [] && ExecuteOps(trace) == [steps[0].onExecute.value]
    ensures OncePerStart(GiveUp(env, done, context, trace), |done|, steps)
  {
    CompensateExecutesNothing(env, done, context);
    ExecuteOpsAppend(trace, Compensate(env, done, context).trace);
    StopsHere(env, done, steps, GiveUp(env, done, context, trace));
  }

  lemma {:induction false} InterpretExecutesOnce<C>(env: Env<C>, done: seq<StepDef>, steps: seq<StepDef>, context: C,
                                                    replies: seq<Response>)
    requires Plain(steps)
    ensures OncePerStart(Interpret(env, done, steps, context, replies), |done|, steps)
    decreases |steps|
  {
    hide OncePerStart, ExecuteOps, GiveUp;
    if steps == [] {
      EndsHere(done, context);
    } else {
      var def := steps[0];
      var start := [Call(OnExecute, def.onExecute.value, context)];
      ExecuteOpsOne(start[0]);
      GivesUpHere(env, done, steps, context, start);
      if def.Local? {
        var result := env.local(def.onExecute.value, context);
        if result.Some? {
          InterpretExecutesOnce(env, done + [def], steps[1..], result.value, replies);
          GoesOn(env, done, steps, start, Interpret(env, done + [def], steps[1..], result.value, replies));
        }
      } else if env.request(def.onExecute.value, context) {
        if replies == [] {
          StopsHere(env, done, steps, Seen(context, ReplyLost, start, |done|));
        } else if replies[0].status != SystemError {
          var handler := if replies[0].status == Success then def.onSuccess else def.onError;
          if handler.None? {
            InterpretExecutesOnce(env, done + [def], steps[1..], context, replies[1..]);
            GoesOn(env, done, steps, start, Interpret(env, done + [def], steps[1..], context, replies[1..]));
          } else {
            var call := Call(if replies[0].status == Success then OnSuccess else OnError, handler.value, context);
            ExecuteOpsOne(call);
            ExecuteOpsAppend(start, [call]);
            var result := env.handle(handler.value, context, replies[0]);
            if result.Some? {
              InterpretExecutesOnce(env, done + [def], steps[1..], result.value, replies[1..]);
              GoesOn(env, done, steps, start + [call], Interpret(env, done + [def], steps[1..], result.value, replies[1..]));
            } else {
              var own := if def.onFailure.Some? then [Call(OnFailure, def.onFailure.value, context)] else [];
              if def.onFailure.Some? { ExecuteOpsOne(own[0]); }
              ExecuteOpsAppend(start + [call], own);
              GivesUpHere(env, done, steps, context, start + [call] + own);
            }
          }
        }
      }
    }
  }

  lemma {:induction false} EndsHere<C>(done: seq<StepDef>, context: C)
    ensures OncePerStart(Seen(context, Ended, [], |done|), |done|, [])
  {
  }

  /** Each started step executes its callback once, in order, however often the execution paused. */
  lemma {:induction false} RequestsOnce<C(!new)>(env: Env<C>, saga: Saga, uuid: Uuid, user: Option<Uuid>, context: C,
                                                 response: Option<Response>, replies: seq<Response>)
    requires ValidSaga(saga) && Flat(saga)
    ensures var d := Drive(env, NewExec(saga, uuid, user, context), response, replies);
            |d.exec.executed| <= |saga.steps| && (d.ending == Ended <==> |d.exec.executed| == |saga.steps|) &&
            ExecuteOps(d.trace) == OpsOf(if d.ending == Ended then saga.steps else saga.steps[..|d.exec.executed| + 1])
  {
    hide Drive, Interpret;
    PauseIsTransparent(env, saga, uuid, user, context, response, replies);
    assert forall i :: 0 <= i < |saga.steps| ==> ValidStep(saga.steps[i]);
    InterpretExecutesOnce(env, [], saga.steps, context, replies);
  }

  // ---------------------------------------------------------------- the loop is short

  function Remotes(steps: seq<StepDef>): nat {
    if steps == [] then 0 else (if steps[0].Remote? then 1 else 0) + Remotes(steps[1..])
  }

  /** A paused execution goes on with one call for its reply and what is left needs. */
  lemma {:induction false} CallsAfterReply<C(!new)>(env: Env<C>, x: Exec<C>, waiting: StepExec<C>, reply: Response, replies: seq<Response>)
    requires Underway(x) && Remaining(x) != [] && waiting.def == Remaining(x)[0] && waiting.def.Remote? && Waiting(waiting) &&
             TracksStep(waiting)
    ensures After(env, Run(env, x.(paused := Some(waiting), status := Paused), Some(reply)), replies).calls <= Remotes(Remaining(x)[1..])
    decreases |Remaining(x)|, 0
  {
    hide Underway, Remaining, Complete, Waiting, TracksStep, Answer, RunPending, After, Run, Remotes;
    NextStep(x);
    ReplyArrives(env, x, waiting, reply);
    AnswerKeeps(env, x, waiting, reply);
    var r := Answer(env, waiting, x.context, reply);
    if r.outcome.Done? {
      Onward(env, x, r.step, r.outcome.context);
      var next := Advance(x, r.step, r.outcome.context);
      CallsFrom(env, next, replies);
      AfterPrefix(env, RunPending(env, next, Remaining(next)), r.trace, replies);
    } else {
      NoCallAfterFailure(env, x.(paused := Some(waiting)), r, replies);
    }
  }

  lemma {:induction false} NoCallAfterFailure<C>(env: Env<C>, x: Exec<C>, r: StepResult<C>, replies: seq<Response>)
    requires r.outcome == StepFailed
    ensures After(env, Settle(env, x, r), replies).calls == 0
  {
  }

  lemma {:induction false} CallsFrom<C(!new)>(env: Env<C>, x: Exec<C>, replies: seq<Response>)
    requires Underway(x)
    ensures After(env, RunPending(env, x, Remaining(x)), replies).calls <= Remotes(Remaining(x))
    decreases |Remaining(x)|, 1
  {
    hide Underway, Complete, Waiting, TracksStep, Answer, Fresh, Drive, Run;
    var pending := Remaining(x);
    if pending != [] {
      NextStep(x);
      var r := Fresh(env, pending[0], x.uuid, x.user, x.context);
      FreshCalls(env, pending[0], x.uuid, x.user, x.context);
      FreshTracks(env, pending[0], x.uuid, x.user, x.context);
      if r.outcome.Done? {
        Onward(env, x, r.step, r.outcome.context);
        var next := Advance(x, r.step, r.outcome.context);
        CallsFrom(env, next, replies);
        AfterPrefix(env, RunPending(env, next, Remaining(next)), r.trace, replies);
      } else if r.outcome == StepFailed {
        NoCallAfterFailure(env, x, r, replies);
      } else if replies != [] {
        Parked(env, x, r, replies);
        WaitingIsRemote(r.step);
        CallsAfterReply(env, x, r.step, replies[0], replies[1..]);
      }
    }
  }

  lemma {:induction false} WaitingIsRemote<C>(step: StepExec<C>)
    requires Waiting(step) && !step.def.Conditional?
    ensures step.def.Remote? && step.status == PausedByOnExecute
  {
  }

  /** The loop calls `execute` at most once for each remote step that is left, and once more. */
  lemma {:induction false} LoopIsShort<C(!new)>(env: Env<C>, x: Exec<C>, response: Option<Response>, replies: seq<Response>)
    requires Live(x) && Tracks(x) && Flat(x.def) && (x.status == Created || x.status == Paused)
    ensures Drive(env, x, response, replies).calls <= Remotes(Remaining(x)) + 1
  {
    hide After, RunPending, Remotes, Run, TracksStep, Complete, Waiting;
    var running := x.(status := Running, paused := None);
    Unpaused(x);
    assert Underway(running) && Remaining(running) == Remaining(x);
    if x.status == Created {
      StartRuns(env, x, response);
      CallsFrom(env, running, replies);
    } else {
      var waiting := x.paused.value;
      assert waiting.def == Remaining(x)[0];
      NextStep(running);
      WaitingIsRemote(waiting);
      assert running.(paused := Some(waiting), status := Paused) == x;
      RemotesFirst(Remaining(x));
      if response.Some? {
        CallsAfterReply(env, running, waiting, response.value, replies);
      } else {
        PausesAgain(env, x);
        if replies != [] { CallsAfterReply(env, running, waiting, replies[0], replies[1..]); }
        AfterPausing(env, x, replies);
      }
    }
  }

  lemma {:induction false} RemotesFirst(steps: seq<StepDef>)
    requires steps != [] && steps[0].Remote?
    ensures Remotes(steps) == Remotes(steps[1..]) + 1
  {
  }

  lemma {:induction false} StartRuns<C>(env: Env<C>, x: Exec<C>, response: Option<Response>)
    requires x.status == Created && x.paused.None?
    ensures Run(env, x, response) == RunPending(env, x.(status := Running, paused := None), Remaining(x))
  {
  }

  lemma {:induction false} PausesAgain<C>(env: Env<C>, x: Exec<C>)
    requires x.status == Paused && x.paused.Some? && x.paused.value.def.Remote? && x.paused.value.status == PausedByOnExecute
    ensures Run(env, x, None) == ExecResult(x, PausedRun, [], [])
  {
    var step := x.paused.value;
    assert step.(status := PausedByOnExecute) == step;
    assert Resume(env, step, x.context, None) == StepResult(step, StepPaused, [], []);
    assert x.(status := Running).(paused := Some(step), status := Paused) == x;
  }

  lemma {:induction false} AfterPausing<C>(env: Env<C>, x: Exec<C>, replies: seq<Response>)
    requires x.status == Paused
    ensures var d := After(env, ExecResult(x, PausedRun, [], []), replies);
            d.calls == if replies == [] then 0 else After(env, Run(env, x, Some(replies[0])), replies[1..]).calls + 1
  {
  }
}
