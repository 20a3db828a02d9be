/**
  The raw form in which an execution is stored between two calls, and reading it back.
 */
module SagaRaw {
  import opened Wrappers
  import opened SagaModel
  import opened SagaCompensation

  datatype RawSaga = RawSaga(steps: seq<RawStepDef>, committed: bool)

  datatype RawAlternative = RawAlternative(condition: string, saga: RawSaga)

  /** The constructor stands for the class name that is stored. */
  datatype RawStepDef =
    | RawLocal(onExecute: Option<string>, onFailure: Option<string>)
    | RawRemote(onExecute: Option<string>, onFailure: Option<string>, onSuccess: Option<string>, onError: Option<string>)
    | RawConditional(ifThen: seq<RawAlternative>, elseThen: Option<RawSaga>)

  datatype StepClass = LocalClass | RemoteClass | ConditionalClass

  datatype RawStep = RawStep(cls: StepClass, definition: RawStepDef, status: string, related: seq<string>, alreadyRollback: bool,
                             inner: Option<RawExec>)

  datatype RawExec = RawExec(definition: RawSaga, uuid: string, status: string, executed: seq<RawStep>, paused: Option<RawStep>,
                             context: string, alreadyRollback: bool, user: Option<string>)

  /** How values become text: contexts by Avro, callbacks by import path, uuids; and a set as some list. */
  datatype Codec<!C> = Codec(
    encode: C -> string, decode: string -> Option<C>,
    name: Op -> string, load: string -> Option<Op>,
    text: Uuid -> string, parse: string -> Option<Uuid>,
    listed: set<string> -> seq<string>)

  ghost predicate Lossless<C(!new)>(codec: Codec<C>) {
    (forall c :: codec.decode(codec.encode(c)) == Some(c)) && (forall op: Op :: codec.load(codec.name(op)) == Some(op)) &&
    (forall u: Uuid :: codec.parse(codec.text(u)) == Some(u)) && (forall s :: Elements(codec.listed(s)) == s)
  }

  function Elements(s: seq<string>): set<string> { set x | x in s }

  // ---------------------------------------------------------------- definitions

  function RawOp<C>(codec: Codec<C>, op: Option<Op>): Option<string> {
    if op.None? then None else Some(codec.name(op.value))
  }

  function RawSagaOf<C>(codec: Codec<C>, saga: Saga): RawSaga
    decreases saga, 1
  {
    RawSaga(RawDefs(codec, saga.steps), saga.committed)
  }

  function RawDefs<C>(codec: Codec<C>, steps: seq<StepDef>): seq<RawStepDef>
    decreases steps
  {
    if steps == [] then [] else [RawDef(codec, steps[0])] + RawDefs(codec, steps[1..])
  }

  function RawDef<C>(codec: Codec<C>, def: StepDef): RawStepDef
    decreases def
  {
    match def
    case Local(onExecute, onFailure) => RawLocal(RawOp(codec, onExecute), RawOp(codec, onFailure))
    case Remote(onExecute, onFailure, onSuccess, onError) =>
      RawRemote(RawOp(codec, onExecute), RawOp(codec, onFailure), RawOp(codec, onSuccess), RawOp(codec, onError))
    case Conditional(ifThen, elseThen) =>
      RawConditional(RawAlternatives(codec, ifThen), if elseThen.None? then None else Some(RawSagaOf(codec, elseThen.value)))
  }

  function RawAlternatives<C>(codec: Codec<C>, alternatives: seq<Alternative>): seq<RawAlternative>
    decreases alternatives
  {
    if alternatives == [] then []
    else [RawAlternativeOf(codec, alternatives[0])] + RawAlternatives(codec, alternatives[1..])
  }

  function RawAlternativeOf<C>(codec: Codec<C>, alternative: Alternative): RawAlternative
    decreases alternative
  {
    RawAlternative(codec.name(alternative.condition), RawSagaOf(codec, alternative.saga))
  }

  /** A missing callback stays missing; one whose name is not found raises. */
  function OpFrom<C>(codec: Codec<C>, raw: Option<string>): Option<Option<Op>> {
    if raw.None? then Some(None)
    else if codec.load(raw.value).None? then None
    else Some(codec.load(raw.value))
  }

  function SagaFrom<C>(codec: Codec<C>, raw: RawSaga): Option<Saga>
    decreases raw, 1
  {
    var steps := DefsFrom(codec, raw.steps);
    if steps.None? then None else Some(Saga(steps.value, raw.committed))
  }

  function DefsFrom<C>(codec: Codec<C>, raws: seq<RawStepDef>): Option<seq<StepDef>>
    decreases raws
  {
    if raws == [] then Some([])
    else
      var first, rest := DefFrom(codec, raws[0]), DefsFrom(codec, raws[1..]);
      if first.None? || rest.None? then None else Some([first.value] + rest.value)
  }

  function DefFrom<C>(codec: Codec<C>, raw: RawStepDef): Option<StepDef>
    decreases raw
  {
    match raw
    case RawLocal(onExecute, onFailure) =>
      var e, f := OpFrom(codec, onExecute), OpFrom(codec, onFailure);
      if e.None? || f.None? then None else Some(Local(e.value, f.value))
    case RawRemote(onExecute, onFailure, onSuccess, onError) =>
      var e, f, s, r := OpFrom(codec, onExecute), OpFrom(codec, onFailure), OpFrom(codec, onSuccess), OpFrom(codec, onError);
      if e.None? || f.None? || s.None? || r.None? then None else Some(Remote(e.value, f.value, s.value, r.value))
    case RawConditional(ifThen, elseThen) =>
      var alternatives := AlternativesFrom(codec, ifThen);
      var otherwise: Option<Saga> := if elseThen.None? then None else SagaFrom(codec, elseThen.value);
      if alternatives.None? || (elseThen.Some? && otherwise.None?) then None else Some(Conditional(alternatives.value, otherwise))
  }

  function AlternativesFrom<C>(codec: Codec<C>, raws: seq<RawAlternative>): Option<seq<Alternative>>
    decreases raws
  {
    if raws == [] then Some([])
    else
      var op, saga, rest := codec.load(raws[0].condition), SagaFrom(codec, raws[0].saga), AlternativesFrom(codec, raws[1..]);
      if op.None? || saga.None? || rest.None? then None else Some([Alternative(op.value, saga.value)] + rest.value)
  }

  lemma {:induction false} SagaRoundTrip<C(!new)>(codec: Codec<C>, saga: Saga)
    requires Lossless(codec)
    ensures SagaFrom(codec, RawSagaOf(codec, saga)) == Some(saga)
    decreases saga, 1
  {
    DefsRoundTrip(codec, saga.steps);
  }

  lemma {:induction false} DefsRoundTrip<C(!new)>(codec: Codec<C>, steps: seq<StepDef>)
    requires Lossless(codec)
    ensures DefsFrom(codec, RawDefs(codec, steps)) == Some(steps)
    decreases steps
  {
    if steps != [] {
      DefRoundTrip(codec, steps[0]);
      DefsRoundTrip(codec, steps[1..]);
      assert RawDefs(codec, steps)[1..] == RawDefs(codec, steps[1..]) && [steps[0]] + steps[1..] == steps;
    }
  }

  lemma {:induction false} DefRoundTrip<C(!new)>(codec: Codec<C>, def: StepDef)
    requires Lossless(codec)
    ensures DefFrom(codec, RawDef(codec, def)) == Some(def)
    decreases def
  {
    if def.Conditional? {
      AlternativesRoundTrip(codec, def.ifThen);
      if def.elseThen.Some? { SagaRoundTrip(codec, def.elseThen.value); }
    }
  }

  lemma {:induction false} AlternativesRoundTrip<C(!new)>(codec: Codec<C>, alternatives: seq<Alternative>)
    requires Lossless(codec)
    ensures AlternativesFrom(codec, RawAlternatives(codec, alternatives)) == Some(alternatives)
    decreases alternatives
  {
    if alternatives != [] {
      var first := alternatives[0];
      AlternativeRoundTrip(codec, first);
      assert [first] + alternatives[1..] == alternatives;
      AlternativesRoundTrip(codec, alternatives[1..]);
      assert RawAlternatives(codec, alternatives)[1..] == RawAlternatives(codec, alternatives[1..]);
    }
  }

  lemma {:induction false} AlternativeRoundTrip<C(!new)>(codec: Codec<C>, alternative: Alternative)
    requires Lossless(codec)
    ensures SagaFrom(codec, RawSagaOf(codec, alternative.saga)) == Some(alternative.saga)
    decreases alternative
  {
    SagaRoundTrip(codec, alternative.saga);
  }

  // ---------------------------------------------------------------- statuses

  function StatusText(status: SagaStatus): string {
    match status
    case Created => "created"
    case Running => "running"
    case Paused => "paused"
    case Finished => "finished"
    case Errored => "errored"
  }

  function StatusFrom(text: string): (r: Option<SagaStatus>)
    ensures r.Some? ==> StatusText(r.value) == text
  {
    if text == "created" then Some(Created)
    else if text == "running" then Some(Running)
    else if text == "paused" then Some(Paused)
    else if text == "finished" then Some(Finished)
    else if text == "errored" then Some(Errored)
    else None
  }

  function StepStatusText(status: StepStatus): string {
    match status
    case StepCreated => "created"
    case RunningOnExecute => "running-on-execute"
    case FinishedOnExecute => "finished-on-execute"
    case ErroredOnExecute => "errored-on-execute"
    case PausedByOnExecute => "paused-by-on-execute"
    case ErroredByOnExecute => "errored-by-on-execute"
    case RunningOnFailure => "running-on-failure"
    case PausedOnFailure => "paused-on-failure"
    case ErroredOnFailure => "errored-on-failure"
    case RunningOnSuccess => "running-on-success"
    case ErroredOnSuccess => "errored-on-success"
    case RunningOnError => "running-on-error"
    case ErroredOnError => "errored-on-error"
    case StepFinished => "finished"
  }

  function StepStatusFrom(text: string): Option<StepStatus> {
    if text == "created" then Some(StepCreated)
    else if text == "running-on-execute" then Some(RunningOnExecute)
    else if text == "finished-on-execute" then Some(FinishedOnExecute)
    else if text == "errored-on-execute" then Some(ErroredOnExecute)
    else if text == "paused-by-on-execute" then Some(PausedByOnExecute)
    else if text == "errored-by-on-execute" then Some(ErroredByOnExecute)
    else if text == "running-on-failure" then Some(RunningOnFailure)
    else if text == "paused-on-failure" then Some(PausedOnFailure)
    else if text == "errored-on-failure" then Some(ErroredOnFailure)
    else if text == "running-on-success" then Some(RunningOnSuccess)
    else if text == "errored-on-success" then Some(ErroredOnSuccess)
    else if text == "running-on-error" then Some(RunningOnError)
    else if text == "errored-on-error" then Some(ErroredOnError)
    else if text == "finished" then Some(StepFinished)
    else None
  }

  lemma {:induction false} StatusRoundTrip(status: SagaStatus)
    ensures StatusFrom(StatusText(status)) == Some(status)
  {
  }

  /** No two statuses are written alike. */
  lemma {:induction false} StepStatusRoundTrip(status: StepStatus)
    ensures StepStatusFrom(StepStatusText(status)) == Some(status)
  {
    assert "running-on-failure"[11] == 'f' && "errored-on-failure"[11] == 'f' && "running-on-success"[11] == 's';
    assert "running-on-execute"[11] == 'e' && "errored-on-execute"[11] == 'e' && "errored-on-success"[11] == 's';
    assert "running-on-execute"[0] == 'r' && "errored-on-execute"[0] == 'e' && "running-on-failure"[0] == 'r' &&
           "errored-on-failure"[0] == 'e';
    assert "running-on-success"[0] == 'r' && "errored-on-success"[0] == 'e' && "running-on-error"[0] == 'r' && "errored-on-error"[0] == 'e';
  }

  // ---------------------------------------------------------------- executions

  function ClassOf(def: StepDef): StepClass {
    match def
    case Local(_, _) => LocalClass
    case Remote(_, _, _, _) => RemoteClass
    case Conditional(_, _) => ConditionalClass
  }

  function RawExecOf<C>(codec: Codec<C>, x: Exec<C>): RawExec
    decreases x
  {
    RawExec(RawSagaOf(codec, x.def), codec.text(x.uuid), StatusText(x.status), RawSteps(codec, x.executed),
            if x.paused.None? then None else Some(RawStepOf(codec, x.paused.value)),
            codec.encode(x.context), x.alreadyRollback, if x.user.None? then None else Some(codec.text(x.user.value)))
  }

  function RawSteps<C>(codec: Codec<C>, steps: seq<StepExec<C>>): (r: seq<RawStep>)
    ensures |r| == |steps|
    decreases steps
  {
    if steps == [] then [] else [RawStepOf(codec, steps[0])] + RawSteps(codec, steps[1..])
  }

  /** Only the raw form of a conditional has the inner execution in it. */
  function RawStepOf<C>(codec: Codec<C>, step: StepExec<C>): RawStep
    decreases step
  {
    RawStep(ClassOf(step.def), RawDef(codec, step.def), StepStatusText(step.status), codec.listed(step.related), step.alreadyRollback,
            if step.def.Conditional? && step.inner.Some? then Some(RawExecOf(codec, step.inner.value)) else None)
  }

  /** `SagaExecution.from_raw`: the executed steps are paired with the steps of the definition, which they get. */
  function ExecFrom<C>(codec: Codec<C>, raw: RawExec): Option<Exec<C>>
    decreases raw
  {
    var def, status := SagaFrom(codec, raw.definition), StatusFrom(raw.status);
    var context, uuid := codec.decode(raw.context), codec.parse(raw.uuid);
    var paused: Option<StepExec<C>> := if raw.paused.None? then None else StepFrom(codec, raw.paused.value, None);
    var user: Option<Uuid> := if raw.user.None? then None else codec.parse(raw.user.value);
    if def.None? || status.None? || context.None? || uuid.None? then None
    else if (raw.paused.Some? && paused.None?) || (raw.user.Some? && user.None?) || !ValidSaga(def.value) then None
    else
      var executed := StepsFrom(codec, raw.executed, def.value.steps);
      if executed.None? then None
      else Some(Exec(def.value, uuid.value, context.value, status.value, executed.value, paused, raw.alreadyRollback, user))
  }

  /** Pairing stops where the shorter of the two ends. */
  function StepsFrom<C>(codec: Codec<C>, raws: seq<RawStep>, defs: seq<StepDef>): Option<seq<StepExec<C>>>
    decreases raws
  {
    if raws == [] || defs == [] then Some([])
    else
      var first, rest := StepFrom(codec, raws[0], Some(defs[0])), StepsFrom(codec, raws[1..], defs[1..]);
      if first.None? || rest.None? then None else Some([first.value] + rest.value)
  }

  /** A conditional without an inner execution cannot be read back. */
  function StepFrom<C>(codec: Codec<C>, raw: RawStep, given: Option<StepDef>): Option<StepExec<C>>
    decreases raw
  {
    var def, status := if given.Some? then given else DefFrom(codec, raw.definition), StepStatusFrom(raw.status);
    var inner: Option<Exec<C>> := if raw.cls == ConditionalClass && raw.inner.Some? then ExecFrom(codec, raw.inner.value) else None;
    if def.None? || status.None? || (raw.cls == ConditionalClass && inner.None?) then None
    else Some(StepExec(def.value, Elements(raw.related), status.value, raw.alreadyRollback, inner))
  }

  // ---------------------------------------------------------------- what survives

  /** What an execution needs for its raw form to be worth the same. */
  predicate Restorable<C(!new)>(x: Exec<C>)
    decreases x
  {
    ValidSaga(x.def) && RestorableSteps(x.executed, x.def.steps) && (x.paused.Some? ==> RestorableStep(x.paused.value))
  }

  predicate RestorableSteps<C(!new)>(steps: seq<StepExec<C>>, defs: seq<StepDef>)
    decreases steps
  {
    steps == [] || (defs != [] && steps[0].def == defs[0] && RestorableStep(steps[0]) && RestorableSteps(steps[1..], defs[1..]))
  }

  predicate RestorableStep<C(!new)>(step: StepExec<C>)
    decreases step
  {
    if step.def.Conditional? then step.inner.Some? && Restorable(step.inner.value) else step.inner.None?
  }

  /** Reading back what was written gives the execution itself exactly if it is restorable, at every depth. */
  lemma {:induction false} RoundTrip<C(!new)>(codec: Codec<C>, x: Exec<C>)
    requires Lossless(codec)
    ensures ExecFrom(codec, RawExecOf(codec, x)) == Some(x) <==> Restorable(x)
    decreases x
  {
    hide StepFrom, RawStepOf, StepsFrom, RawSteps, RestorableStep, RestorableSteps;
    SagaRoundTrip(codec, x.def);
    StatusRoundTrip(x.status);
    StepsRoundTrip(codec, x.executed, x.def.steps);
    if x.paused.Some? { StepRoundTrip(codec, x.paused.value, None); }
  }

  lemma {:induction false} StepsRoundTrip<C(!new)>(codec: Codec<C>, steps: seq<StepExec<C>>, defs: seq<StepDef>)
    requires Lossless(codec)
    ensures StepsFrom(codec, RawSteps(codec, steps), defs) == Some(steps) <==> RestorableSteps(steps, defs)
    decreases steps
  {
    hide StepFrom, RawStepOf, RestorableStep;
    if steps != [] && defs != [] {
      StepRoundTrip(codec, steps[0], Some(defs[0]));
      StepsRoundTrip(codec, steps[1..], defs[1..]);
      assert RawSteps(codec, steps)[1..] == RawSteps(codec, steps[1..]);
      var first, rest := StepFrom(codec, RawStepOf(codec, steps[0]), Some(defs[0])), StepsFrom(codec, RawSteps(codec, steps)[1..],
                                                                                               defs[1..]);
      if first.Some? && rest.Some? {
        var both := [first.value] + rest.value;
        assert both[0] == first.value && both[1..] == rest.value && [steps[0]] + steps[1..] == steps;
      }
    }
  }

  lemma {:induction false} StepRoundTrip<C(!new)>(codec: Codec<C>, step: StepExec<C>, given: Option<StepDef>)
    requires Lossless(codec)
    ensures StepFrom(codec, RawStepOf(codec, step), given) == Some(step) <==>
            (RestorableStep(step) && (given.Some? ==> given.value == step.def))
    decreases step
  {
    hide ExecFrom, RawExecOf, Restorable;
    DefRoundTrip(codec, step.def);
    StepStatusRoundTrip(step.status);
    if step.def.Conditional? && step.inner.Some? { RoundTrip(codec, step.inner.value); }
  }

  // ---------------------------------------------------------------- every run

  /** Every conditional, at every depth, has an alternative for when no condition holds. */
  predicate AlwaysElse(saga: Saga)
    decreases saga
  {
    forall i :: 0 <= i < |saga.steps| ==> ElseStep(saga.steps[i])
  }

  predicate ElseStep(def: StepDef)
    decreases def
  {
    def.Conditional? ==>
      (def.elseThen.Some? && AlwaysElse(def.elseThen.value) && forall i :: 0 <= i < |def.ifThen| ==> AlwaysElse(def.ifThen[i].saga))
  }

  /** No conditional that was executed is without an inner execution. */
  predicate Chosen<C>(x: Exec<C>)
    decreases x
  {
    (forall i :: 0 <= i < |x.executed| ==> ChosenStep(x.executed[i])) && (x.paused.Some? ==> ChosenStep(x.paused.value))
  }

  predicate ChosenStep<C>(step: StepExec<C>)
    decreases step
  {
    step.def.Conditional? ==> step.inner.Some? && Chosen(step.inner.value)
  }

  lemma {:induction false} TrackedIsRestorable<C(!new)>(x: Exec<C>)
    requires Tracks(x) && Chosen(x)
    ensures Restorable(x)
    decreases x
  {
    hide RestorableStep, TracksStep, ChosenStep, RestorableSteps;
    forall i | 0 <= i < |x.executed| ensures RestorableStep(x.executed[i]) { TrackedStepIsRestorable(x.executed[i]); }
    AllRestorable(x.executed, x.def.steps);
    if x.paused.Some? { TrackedStepIsRestorable(x.paused.value); }
  }

  lemma {:induction false} AllRestorable<C(!new)>(steps: seq<StepExec<C>>, defs: seq<StepDef>)
    requires |steps| <= |defs| && forall i :: 0 <= i < |steps| ==> steps[i].def == defs[i] && RestorableStep(steps[i])
    ensures RestorableSteps(steps, defs)
    decreases |steps|
  {
    hide RestorableStep;
    if steps != [] { AllRestorable(steps[1..], defs[1..]); }
  }

  lemma {:induction false} TrackedStepIsRestorable<C(!new)>(step: StepExec<C>)
    requires TracksStep(step) && ChosenStep(step)
    ensures RestorableStep(step)
    decreases step
  {
    hide Restorable, Tracks, Chosen;
    if step.inner.Some? { TrackedIsRestorable(step.inner.value); }
  }

  lemma {:induction false} ElseChooses<C(!new)>(x: Exec<C>)
    requires Tracks(x) && AlwaysElse(x.def)
    ensures Chosen(x)
    decreases x
  {
    hide TracksStep, ChosenStep, ElseStep;
    forall i | 0 <= i < |x.executed| ensures ChosenStep(x.executed[i]) {
      assert ElseStep(x.def.steps[i]);
      ElseChoosesStep(x.executed[i]);
    }
    if x.paused.Some? {
      assert ElseStep(x.def.steps[|x.executed|]);
      ElseChoosesStep(x.paused.value);
    }
  }

  lemma {:induction false} ElseChoosesStep<C(!new)>(step: StepExec<C>)
    requires TracksStep(step) && ElseStep(step.def)
    ensures ChosenStep(step)
    decreases step
  {
    hide Tracks, Chosen, AlwaysElse;
    if step.inner.Some? { ElseChooses(step.inner.value); }
  }

  /** Wherever a run stops, the stored execution is read back as it was. */
  lemma {:induction false} StoredRunIsRestored<C(!new)>(codec: Codec<C>, env: Env<C>, x: Exec<C>, response: Option<Response>)
    requires Lossless(codec) && Tracks(x)
    requires Chosen(Run(env, x, response).exec) || AlwaysElse(x.def)
    ensures ExecFrom(codec, RawExecOf(codec, Run(env, x, response).exec)) == Some(Run(env, x, response).exec)
  {
    hide Execute, Tracks, Chosen, AlwaysElse, Restorable, ExecFrom, RawExecOf;
    ExecuteTracks(env, x, x, response);
    var stored := Run(env, x, response).exec;
    if AlwaysElse(x.def) { ElseChooses(stored); }
    TrackedIsRestorable(stored);
    RoundTrip(codec, stored);
  }
}
