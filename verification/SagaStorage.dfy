/**
  The saga manager and the executions it stores: the loop that drives an execution in memory, the
  commit after it, the rejection after a failure, and what is left in the repository in the end.
 */
module SagaStorage {
  import opened Wrappers
  import opened SagaModel
  import opened SagaCompensation
  import opened SagaManager
  import opened SagaExecutions

  // ---------------------------------------------------------------- what is stored

  /** What the loop leaves in storage: an execution is stored when it completes, and when the reply to its pause has arrived. */
  function Filed<C>(env: Env<C>, x: Exec<C>, response: Option<Response>, replies: seq<Response>, files: map<Uuid, Exec<C>>)
    : map<Uuid, Exec<C>>
    decreases |replies|
  {
    if x.status != Created && x.status != Paused then files
    else
      var r := Run(env, x, response);
      var now := files[r.exec.uuid := r.exec];
      match r.outcome
      case Completed => now
      case PausedRun => if replies == [] then files else Filed(env, r.exec, Some(replies[0]), replies[1..], now)
      case _ => files
  }

  /** The run raises one of the exceptions that count as a failure of the saga. */
  predicate Fails<C>(env: Env<C>, x: Exec<C>, response: Option<Response>, replies: seq<Response>, autocommit: bool, committed: bool) {
    var d := Drive(env, x, response, replies);
    d.ending.ReplyLost? || d.ending == Raised(Failed) || (autocommit && d.ending.Ended? && d.exec.status == Finished && !committed)
  }

  /** `SagaManager._run`: a failed execution is stored once more, a finished one is deleted. */
  function FiledAfterwards<C>(env: Env<C>, x: Exec<C>, response: Option<Response>, replies: seq<Response>, autocommit: bool,
                              committed: bool, raiseOnError: bool, files: map<Uuid, Exec<C>>): map<Uuid, Exec<C>> {
    var m := Manage(env, x, response, replies, autocommit, committed);
    var filed := Filed(env, x, response, replies, files);
    var failed := Fails(env, x, response, replies, autocommit, committed);
    var kept := if failed then filed[m.exec.uuid := m.exec] else filed;
    if (m.ok || (failed && !raiseOnError)) && m.exec.status == Finished then kept - {m.exec.uuid} else kept
  }

  class ExecutionRepository<C> {
    var files: map<Uuid, Exec<C>>

    constructor ()
      ensures files == map[]
    {
      files := map[];
    }

    method Store(x: Exec<C>)
      modifies this
      ensures files == old(files)[x.uuid := x]
    {
      files := files[x.uuid := x];
    }

    method Delete(uuid: Uuid)
      modifies this
      ensures files == old(files) - {uuid}
    {
      files := files - {uuid};
    }
  }

  class Manager<C> {
    const storage: ExecutionRepository<C>

    constructor (storage: ExecutionRepository<C>)
      ensures this.storage == storage
    {
      this.storage := storage;
    }

    /** The `while` of `_run_with_pause_on_memory`; `replies` is what the broker hands over, one at a time. */
    method Loop(env: Env<C>, execution: SagaExecution<C>, response: Option<Response>, replies: seq<Response>)
      returns (ending: Ending, trace: seq<Call<C>>, calls: nat, ghost failing: seq<StepExec<C>>)
      requires execution.Valid()
      modifies execution, storage
      ensures execution.Valid()
      ensures Driven(execution.Value(), ending, trace, failing, calls) == Drive(env, old(execution.Value()), response, replies)
      ensures storage.files == Filed(env, old(execution.Value()), response, replies, old(storage.files))
    {
      hide Run, Drive, Later, Filed;
      ending, trace, calls, failing := Ended, [], 0, [];
      var current, left := response, replies;
      LoopStarts(env, execution.Value(), response, replies);
      while execution.status == Created || execution.status == Paused
        invariant execution.Valid()
        invariant Drive(env, old(execution.Value()), response, replies) == Later(Drive(env, execution.Value(), current, left), trace, calls)
        invariant Filed(env, old(execution.Value()), response, replies, old(storage.files)) ==
                  Filed(env, execution.Value(), current, left, storage.files)
        decreases |left|, execution.status == Created || execution.status == Paused
      {
        RunEnds(env, execution.Value(), current);
        OneRound(env, execution.Value(), current, left, trace, calls);
        OneRoundFiles(env, execution.Value(), current, left, storage.files);
        var outcome, more, fail := execution.Execute(env, current);
        trace, calls := trace + more, calls + 1;
        match outcome {
          case Completed =>
          case PausedRun =>
            if left == [] {
              ErroringKeepsTracks(execution.Value());
              execution.status := Errored;
              return ReplyLost, trace, calls, failing;
            }
            current, left := Some(left[0]), left[1..];
          case _ =>
            return Raised(outcome), trace, calls, fail;
        }
        storage.Store(execution.Value());
      }
      LoopEnds(env, execution.Value(), current, left, trace, calls);
      LoopEndsFiles(env, execution.Value(), current, left, storage.files);
    }

    /** `_run_with_pause_on_memory`: the loop, the commit if it ends, and whether the transactions are rejected. */
    method RunWithPauseOnMemory(env: Env<C>, execution: SagaExecution<C>, response: Option<Response>, replies: seq<Response>,
                                autocommit: bool, committed: bool)
      returns (ok: bool, ending: Ending, trace: seq<Call<C>>, calls: nat, failed: bool, rejected: bool, ghost failing: seq<StepExec<C>>)
      requires execution.Valid()
      modifies execution, storage
      ensures execution.Valid()
      ensures Managed(execution.Value(), ok, ending, trace, failing, calls) ==
              Manage(env, old(execution.Value()), response, replies, autocommit, committed)
      ensures failed == Fails(env, old(execution.Value()), response, replies, autocommit, committed)
      ensures rejected == (failed && autocommit)
      ensures storage.files == Filed(env, old(execution.Value()), response, replies, old(storage.files))
    {
      hide Drive, Commit, Filed;
      ending, trace, calls, failing := Loop(env, execution, response, replies);
      ok := ending.Ended?;
      failed := ending == ReplyLost || ending == Raised(Failed);
      if autocommit && ok {
        var finished := execution.status == Finished;
        var done, more := execution.Commit(env, committed);
        ok, trace, failed := done, trace + more, finished && !done;
        CommitFails(env, Drive(env, old(execution.Value()), response, replies).exec, committed);
      }
      rejected := failed && autocommit;
    }

    /** `_run` with the pauses in memory. */
    method RunExecution(env: Env<C>, execution: SagaExecution<C>, response: Option<Response>, replies: seq<Response>,
                        autocommit: bool, committed: bool, raiseOnError: bool)
      returns (raised: bool, trace: seq<Call<C>>, rejected: bool)
      requires execution.Valid()
      modifies execution, storage
      ensures execution.Valid()
      ensures
        var m := Manage(env, old(execution.Value()), response, replies, autocommit, committed);
        var failed := Fails(env, old(execution.Value()), response, replies, autocommit, committed);
        execution.Value() == m.exec && trace == m.trace && raised == !(m.ok || (failed && !raiseOnError)) &&
        rejected == (failed && autocommit)
      ensures storage.files ==
              FiledAfterwards(env, old(execution.Value()), response, replies, autocommit, committed, raiseOnError, old(storage.files))
    {
      hide Fails, Filed, Manage;
      var ok, ending, calls, failed;
      ghost var failing;
      ok, ending, trace, calls, failed, rejected, failing :=
        RunWithPauseOnMemory(env, execution, response, replies, autocommit, committed);
      if failed { storage.Store(execution.Value()); }
      raised := !(ok || (failed && !raiseOnError));
      if !raised && execution.status == Finished { storage.Delete(execution.uuid); }
    }
  }

  lemma {:induction false} CommitFails<C>(env: Env<C>, x: Exec<C>, committed: bool)
    ensures Commit(env, x, committed).ok <==> x.status == Finished && committed
  {
  }

  lemma {:induction false} OneRoundFiles<C>(env: Env<C>, x: Exec<C>, response: Option<Response>, replies: seq<Response>,
                                            files: map<Uuid, Exec<C>>)
    requires x.status == Created || x.status == Paused
    ensures
      var r := Run(env, x, response);
      var now := files[r.exec.uuid := r.exec];
      Filed(env, x, response, replies, files) ==
      match r.outcome
      case Completed => Filed(env, r.exec, response, replies, now)
      case PausedRun => if replies == [] then files else Filed(env, r.exec, Some(replies[0]), replies[1..], now)
      case _ => files
  {
    hide Run;
    RunEnds(env, x, response);
  }

  lemma {:induction false} LoopEndsFiles<C>(env: Env<C>, x: Exec<C>, response: Option<Response>, replies: seq<Response>,
                                            files: map<Uuid, Exec<C>>)
    requires x.status != Created && x.status != Paused
    ensures Filed(env, x, response, replies, files) == files
  {
  }

  /** What a run amounts to after some rounds of the loop. */
  ghost function Later<C>(d: Driven<C>, trace: seq<Call<C>>, calls: nat): Driven<C> {
    d.(trace := trace + d.trace, calls := calls + d.calls)
  }

  lemma {:induction false} LoopStarts<C>(env: Env<C>, x: Exec<C>, response: Option<Response>, replies: seq<Response>)
    ensures var d := Drive(env, x, response, replies); Later(d, [], 0) == d
  {
  }

  lemma {:induction false} LoopEnds<C>(env: Env<C>, x: Exec<C>, response: Option<Response>, replies: seq<Response>,
                                       trace: seq<Call<C>>, calls: nat)
    requires x.status != Created && x.status != Paused
    ensures Later(Drive(env, x, response, replies), trace, calls) == Driven(x, Ended, trace, [], calls)
  {
  }

  lemma {:induction false} OneRound<C>(env: Env<C>, x: Exec<C>, response: Option<Response>, replies: seq<Response>,
                                       trace: seq<Call<C>>, calls: nat)
    requires x.status == Created || x.status == Paused
    ensures
      var r := Run(env, x, response);
      Later(Drive(env, x, response, replies), trace, calls) ==
      match r.outcome
      case Completed => Later(Drive(env, r.exec, response, replies), trace + r.trace, calls + 1)
      case PausedRun =>
        if replies == [] then Driven(r.exec.(status := Errored), ReplyLost, trace + r.trace, [], calls + 1)
        else Later(Drive(env, r.exec, Some(replies[0]), replies[1..]), trace + r.trace, calls + 1)
      case _ => Driven(r.exec, Raised(r.outcome), trace + r.trace, r.failing, calls + 1)
  {
    hide Run;
    RunEnds(env, x, response);
    var r := Run(env, x, response);
    if r.outcome == PausedRun && replies != [] {
      var d := Drive(env, r.exec, Some(replies[0]), replies[1..]);
      assert trace + (r.trace + d.trace) == trace + r.trace + d.trace;
    }
  }

  // ---------------------------------------------------------------- what is left in the end

  lemma {:induction false} RunPendingKeepsUuid<C>(env: Env<C>, x: Exec<C>, pending: seq<StepDef>)
    ensures RunPending(env, x, pending).exec.uuid == x.uuid
    decreases |pending|
  {
    hide RollbackList, Fresh;
    if pending != [] {
      var r := Fresh(env, pending[0], x.uuid, x.user, x.context);
      if r.outcome.Done? { RunPendingKeepsUuid(env, Advance(x, r.step, r.outcome.context), pending[1..]); }
    }
  }

  lemma {:induction false} RunKeepsUuid<C>(env: Env<C>, x: Exec<C>, response: Option<Response>)
    ensures Run(env, x, response).exec.uuid == x.uuid
  {
    hide RollbackList, RunPending, Resume;
    var running := x.(status := Running);
    if x.paused.None? {
      RunPendingKeepsUuid(env, running, Remaining(x));
    } else {
      var r := Resume(env, x.paused.value, x.context, response);
      if r.outcome.Done? {
        var next := Advance(running, r.step, r.outcome.context);
        RunPendingKeepsUuid(env, next, Remaining(next));
      }
    }
  }

  lemma {:induction false} DriveKeepsUuid<C>(env: Env<C>, x: Exec<C>, response: Option<Response>, replies: seq<Response>)
    ensures Drive(env, x, response, replies).exec.uuid == x.uuid
    decreases |replies|
  {
    hide Execute;
    RunKeepsUuid(env, x, response);
    var r := Run(env, x, response);
    if r.outcome == PausedRun && replies != [] { DriveKeepsUuid(env, r.exec, Some(replies[0]), replies[1..]); }
  }

  lemma {:induction false} FailedPendingIsErrored<C>(env: Env<C>, x: Exec<C>, pending: seq<StepDef>)
    ensures RunPending(env, x, pending).outcome == Failed ==> RunPending(env, x, pending).exec.status == Errored
    decreases |pending|
  {
    hide RollbackList, Fresh;
    if pending != [] {
      var r := Fresh(env, pending[0], x.uuid, x.user, x.context);
      if r.outcome.Done? { FailedPendingIsErrored(env, Advance(x, r.step, r.outcome.context), pending[1..]); }
    }
  }

  lemma {:induction false} FailedRunIsErrored<C>(env: Env<C>, x: Exec<C>, response: Option<Response>)
    ensures Run(env, x, response).outcome == Failed ==> Run(env, x, response).exec.status == Errored
  {
    hide RollbackList, RunPending, Resume;
    var running := x.(status := Running);
    if x.paused.None? {
      FailedPendingIsErrored(env, running, Remaining(x));
    } else {
      var r := Resume(env, x.paused.value, x.context, response);
      if r.outcome.Done? {
        var next := Advance(running, r.step, r.outcome.context);
        FailedPendingIsErrored(env, next, Remaining(next));
      }
    }
  }

  lemma {:induction false} FailureIsErrored<C>(env: Env<C>, x: Exec<C>, response: Option<Response>, replies: seq<Response>)
    ensures var d := Drive(env, x, response, replies); d.ending == ReplyLost || d.ending == Raised(Failed) ==> d.exec.status == Errored
    decreases |replies|
  {
    hide Execute;
    FailedRunIsErrored(env, x, response);
    var r := Run(env, x, response);
    if r.outcome == PausedRun && replies != [] { FailureIsErrored(env, r.exec, Some(replies[0]), replies[1..]); }
  }

  /** The loop stores nothing but this execution, and only as it is paused or finished, with every step accounted for. */
  ghost predicate SoundlyFiled<C>(uuid: Uuid, files: map<Uuid, Exec<C>>, filed: map<Uuid, Exec<C>>) {
    filed.Keys == files.Keys + (if uuid in filed then {uuid} else {}) &&
    (forall u :: u in files && u != uuid ==> filed[u] == files[u]) &&
    (uuid in filed && (uuid !in files || filed[uuid] != files[uuid]) ==>
       var x := filed[uuid]; x.uuid == uuid && Live(x) && Tracks(x) && (x.status == Paused || x.status == Finished))
  }

  lemma {:induction false} FiledSoundly<C(!new)>(env: Env<C>, x: Exec<C>, response: Option<Response>, replies: seq<Response>,
                                                 files: map<Uuid, Exec<C>>)
    requires Live(x) && Tracks(x) && Sheltered(env, x.def)
    ensures SoundlyFiled(x.uuid, files, Filed(env, x, response, replies, files))
    decreases |replies|
  {
    hide Execute, Live, Tracks, Sheltered, Willing;
    if x.status == Created || x.status == Paused {
      var r := Run(env, x, response);
      RunKeepsUuid(env, x, response);
      ExecuteCalls(env, x, x, response);
      ExecuteTracks(env, x, x, response);
      if r.outcome == PausedRun && replies != [] {
        FiledSoundly(env, r.exec, Some(replies[0]), replies[1..], files[x.uuid := r.exec]);
      }
    }
  }

  /** The executions that the loop came back with, in order: paused ones whose reply arrived, and the finished one. */
  function Rounds<C>(env: Env<C>, x: Exec<C>, response: Option<Response>, replies: seq<Response>): seq<Exec<C>>
    decreases |replies|
  {
    if x.status != Created && x.status != Paused then []
    else
      var r := Run(env, x, response);
      if r.outcome == Completed then [r.exec]
      else if r.outcome == PausedRun && replies != [] then [r.exec] + Rounds(env, r.exec, Some(replies[0]), replies[1..])
      else []
  }

  /** At any time a stop of the process leaves in storage the last execution whose reply had arrived, or nothing new. */
  lemma {:induction false} LastRoundIsFiled<C>(env: Env<C>, x: Exec<C>, response: Option<Response>, replies: seq<Response>,
                                               files: map<Uuid, Exec<C>>)
    ensures var rounds := Rounds(env, x, response, replies);
            Filed(env, x, response, replies, files) ==
            if rounds == [] then files else files[x.uuid := rounds[|rounds| - 1]]
    decreases |replies|
  {
    hide Run;
    if x.status == Created || x.status == Paused {
      var r := Run(env, x, response);
      RunKeepsUuid(env, x, response);
      if r.outcome == PausedRun && replies != [] {
        LastRoundIsFiled(env, r.exec, Some(replies[0]), replies[1..], files[x.uuid := r.exec]);
      }
    }
  }

  /**
    In the end nothing is left of an execution that succeeded; of one that failed exactly the failed execution is
    left, compensated as it is due; and no other execution is touched. Any other exception leaves what the loop
    stored last, and takes a compensation that raises inside a conditional.
   */
  lemma {:induction false} StorageIsExact<C(!new)>(env: Env<C>, x: Exec<C>, response: Option<Response>, replies: seq<Response>,
                                                   autocommit: bool, committed: bool, raiseOnError: bool, files: map<Uuid, Exec<C>>)
    requires Live(x) && Tracks(x) && (x.status == Created || x.status == Paused) && Sheltered(env, x.def)
    ensures
      var m := Manage(env, x, response, replies, autocommit, committed);
      var failed := Fails(env, x, response, replies, autocommit, committed);
      var filed := FiledAfterwards(env, x, response, replies, autocommit, committed, raiseOnError, files);
      (m.ok ==> !failed && filed == files - {x.uuid}) &&
      (failed ==> !m.ok && m.exec.status == Errored && filed == files[x.uuid := m.exec]) &&
      (!m.ok && !failed ==> !Willing(env, x.def) && SoundlyFiled(x.uuid, files, filed))
  {
    hide Drive, Filed, Live, Tracks, Sheltered, Willing, RollbackExec, Path, DueOnFailure, FailureOps, SoundlyFiled;
    var d := Drive(env, x, response, replies);
    RunCompensates(env, x, response, replies);
    DriveKeepsUuid(env, x, response, replies);
    DriveKeepsDef(env, x, response, replies);
    FiledSoundly(env, x, response, replies, files);
    FailureIsErrored(env, x, response, replies);
    CommitKeepsUuid(env, d.exec, committed);
    SoundlyOverwritten(x.uuid, files, Filed(env, x, response, replies, files),
                       Manage(env, x, response, replies, autocommit, committed).exec);
    if d.ending.Ended? { LiveIsNotErrored(d.exec); }
  }

  lemma {:induction false} CommitKeepsUuid<C>(env: Env<C>, x: Exec<C>, committed: bool)
    ensures var c := Commit(env, x, committed); c.exec.uuid == x.uuid && (x.status == Finished && !committed ==> c.exec.status == Errored)
  {
    hide RollbackList;
  }

  lemma {:induction false} LiveIsNotErrored<C>(x: Exec<C>)
    requires Live(x)
    ensures x.status != Errored
  {
  }

  lemma {:induction false} SoundlyOverwritten<C>(uuid: Uuid, files: map<Uuid, Exec<C>>, filed: map<Uuid, Exec<C>>, x: Exec<C>)
    requires SoundlyFiled(uuid, files, filed)
    ensures filed - {uuid} == files - {uuid} && filed[uuid := x] == files[uuid := x]
  {
    hide Live, Tracks;
    assert filed[uuid := x].Keys == files[uuid := x].Keys;
    assert (filed - {uuid}).Keys == (files - {uuid}).Keys;
  }
}
