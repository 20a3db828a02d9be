# Minos: transactions, sagas and snapshots

Minos is a framework for reactive microservices: aggregates stored as events, transactions over them,
sagas across services, and a two-phase commit that ends a saga. This project is a Dafny model of the
parts where those promises are made, with proofs that they are kept, and with the exact conditions
where they are not. `dafny verify dfyconfig.toml` checks all of it.

| file | what it holds |
|---|---|
| `TransactionProtocol.dfy`, `TransactionSafety.dfy`, `TransactionTheorems.dfy` | the event log, the stored transactions and the lock-holding sections of the code as steps; the invariant; what every run guarantees and where it stops |
| `TransactionReservation.dfy` | when a reservation is granted |
| `RepeatedWrites.dfy` | transactions that write an entity several times: when they commit |
| `TransactionEntry.dfy` | the in-memory repositories and the transaction handle as objects, each method tied to its step |
| `TwoPhaseCommit.dfy`, `TwoPhaseOutcome.dfy` | one coordinator, any set of participants, each a transaction in a service that runs the protocol above; what is decided and what comes of it |
| `Overlay.dfy`, `CommitVisibility.dfy` | reading inside nested transactions, and why a commit is not seen |
| `SagaModel.dfy` | saga definitions and executions as values, with a trace of the callbacks |
| `SagaCompensation.dfy`, `SagaUndo.dfy`, `SagaManager.dfy` | the run invariant and the compensations; the driving loop against an uninterrupted interpreter |
| `SagaTransparency.dfy`, `SagaResuming.dfy` | pauses inside conditionals; exactly when they are seen |
| `SagaExecution.dfy`, `SagaStorage.dfy` | the executions as objects; the manager that drives them and what it leaves in storage |
| `SagaRaw.dfy`, `SagaParticipants.dfy`, `SagaRelated.dfy` | the stored form of an execution; the participants of its commit, and which services they are |
| `FieldDiffs.dfy`, `EventSourcing.dfy`, `ConcurrentSaves.dfy` | differences of fields and sets, replay over runs, and saves that overlap |
| `SnapshotTable.dfy`, `TransactionRows.dfy`, `OverlayRows.dfy` | the rows of open transactions, against the log and the overlay; the incremental snapshot table with overlapping synchronisations |
| `ProtocolSnapshots.dfy` | what the table assumes is what the protocol does |
| `TypeHints.dfy`, `CardNumber.dfy` | the comparator of type hints; the check digit of a card number |

## What the runs are assumed to respect

The step system of the transaction protocol takes any operation by any handle at any moment; only the
stored status decides. What a run has to respect is in `Permitted`:

- A transaction is written only while it is stored as PENDING, at one plus the latest version that its
  chain shows (the rule of the database repository,
  packages/plugins/minos-database-aiopg/minos/plugins/aiopg/factories/aggregate/events.py:129-147).
  The in-memory counter is modelled as it is: per transaction, and moving even on a refused submission.
- When it is reserved, it has written each entity once. `TwoWritesBreakCommit` shows that this is
  necessary: `validate` looks at the highest version only. `RepeatedWrites.dfy` drops this premise and
  gives the exact condition instead. It is one on the state in which the commit begins: the reservation
  alone does not decide, because a sibling that wrote more can still be reserved (`LongerRivalBlocks`).
- What a nested transaction inherits of an entity does not shift under it (`base`).
  `NestedExclusionFails` is a run in which it does, and exclusion and the commit guarantee fail.
- A transaction is not reserved while a child of it is active. Nothing is asked of rejections.
- The name of an entity is determined by its uuid, and stored transactions point to destinations that
  were created before them.

A reservation is one step, as the code holds both locks for it. A commit is a beginning, one step per
copied event, and an end, so that direct submissions may come between. In the two-phase commit the
blocked-reservation sweep is a step without a clock; `Agreement` asks that it takes back no promise,
`SweepIsExact` shows that exactly those sweeps keep the invariant, and `SweepIsHarmlessExactly` that
exactly they are followed by agreement in every continuation, once everybody has answered. Reserve
requests and replies arrive at most once: the coordinator counts replies without looking at their
senders.

Sagas: callbacks are unknown functions of the context that may raise; conditions do not raise.
`autocommit` is off, as the manager calls `execute`. Compensations inside a conditional are assumed not
to raise where all compensations are claimed, because a nested rollback that raises is not caught
(`NestedRaiseSkips`); `RollbackStopsExactly` says what happens without that. Outside of conditionals
nothing is assumed. `PauseIsTransparent` is about local and remote steps, against an
interpreter of its own. With conditionals, resuming drops the contexts of the inner executions
(`ResumingForgets`, `PauseIsSeen`). `ResumingIsExact` is the exact condition for this not to be seen in
the execution, the outcome and the calls: the innermost context is the outermost one, and so is every
context in between unless it is dead (`DeadContextIsUnseen` is a run with a dead one). That something
further in may wait again is meant over all callbacks; `MayPauseIsExact` says when the definition
decides it. The inner execution keeps the uuid and user it was created with, which are those of the
outer one.

Encodings (Avro, import paths, uuids) are taken to be lossless, and the order in which a set is listed
is arbitrary.

Saves of one entity read, then submit, and nothing compares versions in between:
`OverlappingSavesAreExact` is the exact condition, `MixedSaves` a run that breaks it. In `EventSourcing`
a save is one step.

The snapshot table is synchronised by any number of synchronisations at once, as every read starts one
and none takes a lock; each reads a row and writes it later, may stop at any offset, and may be broken
off by an exception at any point. Each runs in the transaction of its reader, if there is one, and then
looks up global events through that transaction too, because no transaction is passed for them
(snapshots/repositories/abc.py:201-202): `InsideReadIsLost` and `InsideReadLeaks` are runs with a single
such reader. The upsert compares no versions, so a slow write can undo a newer one: `SlowWriteIsLost`.
`SnapshotIsReplayExactly` covers both, with the condition `Fits` on the row that a write finds: it is
what deciding from that row would give, or is there already, or is a deletion, and nothing is passed
over that is not there. Outside transactions this is that the row is not newer (`OutsideIsGuarded`);
inside, for uninterrupted dispatches, it suffices that no transaction on the reader's chain has a row of
the entity (`AllDirect` in `SnapshotIsReplay`), but it is not necessary, since a row found through the
transaction may by chance give the right values. That other writes show something wrong is stated for
logs in which only deletions follow a deletion, since a reader cannot tell a wrong row from a replay
that is broken already. `CleanUpIsExact` is the exact condition for the rows of ended
transactions, `SlowDispatchLeaks` a run that breaks it. What the table assumes of its surroundings
(global versions that go up along the log, final statuses saved together with the length of the log plus
one, no event after the end of its transaction) is `ProtocolStepIsTableStep`. The rows of open
transactions (`OwnRowIsReplay`) are for uninterrupted dispatches and direct reads, transactions that are
open with all around them, destinations that do not change, and events that are newer than all that their
transaction saw, which is the rule for versions above.

Where the code differs from what one would expect, the code is followed: a deletion that is followed by
another event blocks the database snapshot, while the in-memory one revives the entity
(`DispatchRaises`); an event without differences decomposes into nothing (`DecomposeKeepsMeaning`); a
conditional that chose no alternative is stored but cannot be read back (`RoundTrip`); a saga that gets
no reply is marked as failed without any compensation (`RunCompensates`).

## Model

| member | source | states |
|---|---|---|
| TransactionSafety.StepKeeps | packages/core/minos-microservice-aggregate/minos/aggregate/transactions/entries.py:140-252 | every step of the protocol, whichever handle tries it and however it fails, keeps the whole invariant: contiguous versions, exact counters, every active transaction ready to be copied, exclusion, exact progress of the running commit, exact copies |
| TransactionSafety.CommittableIsNext | packages/core/minos-microservice-aggregate/minos/aggregate/transactions/entries.py:187-237 | a transaction that `validate` accepts, having written each entity once, holds exactly the next version of each of its entities in the destination |
| TransactionSafety.ReservedSiblingClashes | packages/core/minos-microservice-aggregate/minos/aggregate/transactions/entries.py:213-235 | a transaction that shares an entity with a reserved or committing sibling is not accepted by `validate` |
| TransactionSafety.CopyIsAccepted | packages/core/minos-microservice-aggregate/minos/aggregate/transactions/entries.py:158-165 | each copy of a running commit passes the validation of the event repository and its version check, at any point of any interleaving |
| TransactionTheorems.RunKeeps | packages/core/minos-microservice-aggregate/minos/aggregate/events/repositories/abc.py:146-203 | the invariant holds at every point of every run from empty repositories |
| TransactionTheorems.ReservationExclusion | packages/core/minos-microservice-aggregate/minos/aggregate/transactions/entries.py:167-237 | no two RESERVED or COMMITTING siblings ever hold the same entity |
| TransactionTheorems.VersionsHaveNoGap | packages/core/minos-microservice-aggregate/minos/aggregate/events/repositories/memory.py:45-71 | the outermost versions of an entity are 1..n, and those of a transaction continue the inherited one, with no gap and no repetition, at every point of every run |
| TransactionTheorems.CopyAdvances | packages/core/minos-microservice-aggregate/minos/aggregate/transactions/entries.py:158-165 | one round of the commit loop stores exactly the next pending copy and leaves the others pending |
| TransactionTheorems.CommitEnds | packages/core/minos-microservice-aggregate/minos/aggregate/transactions/entries.py:150-156 | a commit whose events are copied ends COMMITTED with `event_offset` one more than the length of the log |
| TransactionTheorems.CommitFinishes | packages/core/minos-microservice-aggregate/minos/aggregate/transactions/entries.py:150-165 | from any point a running commit gets to COMMITTED, and appends exactly its pending copies in order |
| TransactionTheorems.ReservedCommits | packages/core/minos-microservice-aggregate/minos/aggregate/transactions/entries.py:140-165 | whatever happened since, a RESERVED transaction commits when told to: its events land after the log one for one |
| TransactionTheorems.FinalStatusStays | packages/core/minos-microservice-aggregate/minos/aggregate/transactions/repositories/memory.py:35-62 | no step changes a stored COMMITTED or REJECTED |
| TransactionTheorems.OneOutcome | packages/core/minos-microservice-aggregate/minos/aggregate/transactions/repositories/memory.py:35-62 | along a run a transaction is never both COMMITTED and REJECTED, whatever stale handles do |
| TransactionTheorems.CopiesAreExact | packages/core/minos-microservice-aggregate/minos/aggregate/transactions/entries.py:158-165 | every event is copied at most once, unchanged, into its destination; its transaction is never rejected; a committed transaction has every event copied |
| TransactionTheorems.TwoWritesBreakCommit | packages/core/minos-microservice-aggregate/minos/aggregate/transactions/entries.py:207-219 | necessity of one write per entity: any transaction that wrote an entity twice is reserved after a direct write of it and then has an event that can never be copied |
| TransactionTheorems.ShiftedSiblingsBlockEachOther | packages/core/minos-microservice-aggregate/minos/aggregate/transactions/entries.py:213-235 | nested siblings that wrote one entity at different versions are both reserved, and the first commit is abandoned in COMMITTING |
| TransactionTheorems.NestedExclusionFails | packages/core/minos-microservice-aggregate/minos/aggregate/transactions/entries.py:187-237 | a concrete run in which exclusion fails because an ancestor moved on between two nested writes |
| TransactionReservation.ReservationIsExact | packages/core/minos-microservice-aggregate/minos/aggregate/transactions/entries.py:167-237 | in any reachable state with nothing running, a pending transaction with an open destination that wrote each entity once is RESERVED if and only if the destination still shows what it inherited of each of them and no transaction on its way into the same destination has written one, and REJECTED otherwise |
| TransactionReservation.ClosedIsRefused | packages/core/minos-microservice-aggregate/minos/aggregate/transactions/entries.py:193-205 | a transaction whose destination is no longer pending is refused, whatever it wrote |
| TransactionReservation.ParentIsReserved | packages/core/minos-microservice-aggregate/minos/aggregate/transactions/entries.py:213-235 | a committed child does not stand in the way of its parent: what it wrote is the parent's own, and the parent is reserved by the condition on its own destination |
| TransactionReservation.NestedThenOuter | packages/core/minos-microservice-aggregate/minos/aggregate/transactions/entries.py:222-235 | a run in which a nested transaction is committed and the outer one then reserved |
| RepeatedWrites.CommitsExactly | packages/core/minos-microservice-aggregate/minos/aggregate/transactions/entries.py:140-165 | whatever a RESERVED transaction has written, how often, and whatever else is stored: its commit ends COMMITTED, with all its copies after the log, exactly if each event can be copied in turn as the commit begins; otherwise it stays COMMITTING |
| RepeatedWrites.FirstVersionDecides | packages/core/minos-microservice-aggregate/minos/aggregate/transactions/entries.py:158-165 | at any depth: that is so exactly if the first version of each entity is past the destination's counter and no active sibling has touched the entity |
| RepeatedWrites.RunFits | packages/core/minos-microservice-aggregate/minos/aggregate/events/repositories/memory.py:45-71 | in every run of top-level transactions that write as often as they like, refused commits included, their versions count up from the version they found and never from one beyond the counter |
| RepeatedWrites.RepeatedWritesCommit | packages/core/minos-microservice-aggregate/minos/aggregate/transactions/entries.py:140-165 | in every such run a RESERVED transaction commits if and only if, as the commit begins, the first version of each of its entities is the next one of the outermost level and no other active transaction has touched the entity |
| RepeatedWrites.ClearStaysExactly | packages/core/minos-microservice-aggregate/minos/aggregate/transactions/entries.py:187-237 | a reserved transaction that could commit still can after a step that leaves it reserved, exactly unless the step reserves another transaction that has touched one of its entities |
| RepeatedWrites.UnrivalledCommits | packages/core/minos-microservice-aggregate/minos/aggregate/transactions/entries.py:140-237 | so without such a reservation in between it commits later |
| RepeatedWrites.LongerRivalBlocks | packages/core/minos-microservice-aggregate/minos/aggregate/transactions/entries.py:207-219 | a run in which such a reservation is granted, because `validate` compares highest versions, and then neither transaction can commit |
| RepeatedWrites.CollisionLeavesGap | packages/core/minos-microservice-aggregate/minos/aggregate/events/repositories/memory.py:45-71 | a refused version stores nothing, but is remembered: the next event of the entity skips a version |
| TransactionEntries.TransactionRepository.Submit | packages/core/minos-microservice-aggregate/minos/aggregate/transactions/repositories/memory.py:35-62 | stores exactly if the status may move so; otherwise nothing changes |
| TransactionEntries.TransactionRepository.Select | packages/core/minos-microservice-aggregate/minos/aggregate/transactions/repositories/memory.py:64-124 | exactly the stored transactions that the given identifier, excluded identifier, set of identifiers, destination, status and set of statuses let pass |
| TransactionEntries.EventRepository.Validate | packages/core/minos-microservice-aggregate/minos/aggregate/events/repositories/abc.py:179-203 | true exactly if no active child transaction, but the skipped one, has touched the entity |
| TransactionEntries.EventRepository.Submit | packages/core/minos-microservice-aggregate/minos/aggregate/events/repositories/memory.py:45-71 | the whole new state is that of the protocol: counter, log, refusal and collision |
| TransactionEntries.TransactionEntry.Save | packages/core/minos-microservice-aggregate/minos/aggregate/transactions/entries.py:254-267 | handle and storage after a save, accepted or not: the handle changes even if the storage refuses |
| TransactionEntries.TransactionEntry.HighestVersions | packages/core/minos-microservice-aggregate/minos/aggregate/transactions/entries.py:207-211 | the dictionary holds, for each entity the transaction wrote, its highest version and nothing else |
| TransactionEntries.TransactionEntry.Rivals | packages/core/minos-microservice-aggregate/minos/aggregate/transactions/entries.py:213-219 | the scan finds a clash with the destination exactly if there is one, and otherwise exactly the transactions with an event at one of those versions |
| TransactionEntries.TransactionEntry.Validate | packages/core/minos-microservice-aggregate/minos/aggregate/transactions/entries.py:187-237 | the loops decide exactly the declarative condition of the protocol |
| TransactionEntries.TransactionEntry.Reserve | packages/core/minos-microservice-aggregate/minos/aggregate/transactions/entries.py:167-185 | from a possibly stale handle, stored or not: exactly the protocol step, and success exactly if the transaction is PENDING and committable |
| TransactionEntries.TransactionEntry.Reject | packages/core/minos-microservice-aggregate/minos/aggregate/transactions/entries.py:239-252 | exactly the protocol step, and success exactly if the stored status may still become REJECTED |
| TransactionEntries.TransactionEntry.CopyAll | packages/core/minos-microservice-aggregate/minos/aggregate/transactions/entries.py:158-165 | scanning the log while it grows performs exactly the copy steps of the protocol, up to the first refusal |
| TransactionEntries.TransactionEntry.CommitReserved | packages/core/minos-microservice-aggregate/minos/aggregate/transactions/entries.py:150-156 | refused exactly if a transaction is stored that is not RESERVED; otherwise the whole commit of the protocol, also for one that was never stored |
| TransactionEntries.TransactionEntry.Commit | packages/core/minos-microservice-aggregate/minos/aggregate/transactions/entries.py:140-156 | the whole new state in every case and for every handle, of a stored transaction or not: reserved and committed as in the protocol exactly if what the handle remembers is true and the reservation succeeds, and otherwise only what the reservation did |
| TransactionEntries.MeetingDecides | packages/core/minos-microservice-aggregate/minos/aggregate/transactions/entries.py:207-237 | comparing dictionaries of highest versions decides the same as comparing all pairs of events |
| TransactionEntries.OwnStatusIsIgnored | packages/core/minos-microservice-aggregate/minos/aggregate/transactions/entries.py:175-179 | storing RESERVING before validating does not sway the validation |
| TwoPhaseCommit.EventKeeps | packages/core/minos-microservice-saga/minos/saga/executions/commit.py:65-119 | every event of coordinator, services and network keeps the coordinator invariant |
| TwoPhaseCommit.DecideKeeps | packages/core/minos-microservice-saga/minos/saga/executions/commit.py:79-99 | as many positive replies as participants means that every participant is reserved when the decision falls |
| TwoPhaseCommit.Agreement | packages/core/minos-microservice-saga/minos/saga/executions/commit.py:65-119 | in every run with delayed and reordered messages, commits and rejections that arrive repeatedly or never, reserve requests and replies that arrive at most once, timeouts and harmless sweeps: no participant is committing or COMMITTED while another is REJECTED |
| TwoPhaseCommit.ServicesKeep | packages/core/minos-microservice-aggregate/minos/aggregate/transactions/services.py:51-102 | whatever arrives, each service keeps the invariant of its own transaction protocol |
| TwoPhaseCommit.DeliveredCommits | packages/core/minos-microservice-aggregate/minos/aggregate/transactions/services.py:80-91 | once all commit messages are delivered, each participant whose service is not in the middle of a commit is COMMITTED, and the one being committed gets to COMMITTED |
| TwoPhaseCommit.SweepIsExact | packages/core/minos-microservice-aggregate/minos/aggregate/transactions/services.py:94-102 | a sweep keeps the coordinator invariant if and only if it takes back no promise: no positive reply, in flight or counted, as long as no other one excludes a commit, and none at all once the decision to commit has fallen |
| TwoPhaseCommit.SweepIsHarmlessExactly | packages/core/minos-microservice-aggregate/minos/aggregate/transactions/services.py:94-102 | in any run, after a sweep that takes back no promise nobody commits while another one is rejected, whatever happens from then on; once everybody has been asked and has answered, only after such a sweep: otherwise there is a continuation that ends torn |
| TwoPhaseCommit.SweepBreaksAgreement | packages/core/minos-microservice-aggregate/minos/aggregate/transactions/services.py:94-102 | in any run that has counted a positive reply of every participant, sweeping one before the decision ends with it REJECTED and any other one committing |
| TwoPhaseOutcome.DecisionIsExact | packages/core/minos-microservice-saga/minos/saga/executions/commit.py:65-112 | in any run the decision is for the commit if and only if every participant has answered that it is reserved, against it if and only if all have answered and one refused, with everybody being told in either case; until then nothing happens |
| TwoPhaseOutcome.ReplyIsExact | packages/core/minos-microservice-aggregate/minos/aggregate/transactions/services.py:51-62 | the reply of a service is positive exactly if the transaction was PENDING and has become RESERVED |
| TwoPhaseOutcome.DecisionsStand | packages/core/minos-microservice-saga/minos/saga/executions/commit.py:65-112 | a decision is not taken back, and after a timeout, a decision against it or a rejection nothing is committed any more |
| TwoPhaseOutcome.RejectionsAreSent | packages/core/minos-microservice-saga/minos/saga/executions/commit.py:101-112 | once the decision fell against the commit, or rejections were sent, every participant has a rejection to be delivered, for ever |
| TwoPhaseOutcome.RejectionIsWaiting | packages/core/minos-microservice-aggregate/minos/aggregate/transactions/services.py:64-78 | which can be delivered whenever the service is not in the middle of a commit |
| TwoPhaseOutcome.RejectionReleases | packages/core/minos-microservice-aggregate/minos/aggregate/transactions/services.py:64-78 | a participant that was stored when its rejection was delivered is REJECTED from then on, along any run |
| TwoPhaseOutcome.DeliveredRejections | packages/core/minos-microservice-aggregate/minos/aggregate/transactions/services.py:64-78 | once all rejections are delivered no participant is left pending or reserved: each is REJECTED |
| Overlay.ChainUuids | packages/core/minos-microservice-aggregate/minos/aggregate/transactions/entries.py:269-283 | the chain of a transaction, from the outermost log inwards |
| Overlay.TransactionUuids | packages/core/minos-microservice-aggregate/minos/aggregate/snapshots/repositories/memory.py:140-152 | reading inside a transaction is reading its nearest ancestor that is not rejected |
| Overlay.NearestIsNearest | packages/core/minos-microservice-aggregate/minos/aggregate/snapshots/repositories/memory.py:140-152 | the view of that transaction: its chain is the outer part of the reader's, and all transactions further in are rejected |
| Overlay.SortedEntries | packages/core/minos-microservice-aggregate/minos/aggregate/snapshots/repositories/memory.py:155-161 | the entries of the entity on the chain, sorted by version and then by depth |
| Overlay.Sweep | packages/core/minos-microservice-aggregate/minos/aggregate/snapshots/repositories/memory.py:163-168 | of a sorted list with several transactions, keeps for every version the innermost event |
| Overlay.EventEntries | packages/core/minos-microservice-aggregate/minos/aggregate/snapshots/repositories/memory.py:154-169 | strictly increasing versions, only events of the chain, and for every event of the chain one at its version that is at least as far inside |
| Overlay.OverlayIsUnique | packages/core/minos-microservice-aggregate/minos/aggregate/snapshots/repositories/memory.py:154-169 | that description has exactly one solution |
| CommitVisibility.HeldEntityStays | packages/core/minos-microservice-aggregate/minos/aggregate/events/repositories/abc.py:179-203 | no step changes what the destination holds of a held entity, except the one that copies the holder's event |
| CommitVisibility.HeldThroughCommit | packages/core/minos-microservice-aggregate/minos/aggregate/transactions/entries.py:140-165 | from reservation to the end of the commit the destination gains that one event, through any interleaving |
| CommitVisibility.ViewsAgreeExactly | packages/core/minos-microservice-aggregate/minos/aggregate/snapshots/repositories/memory.py:154-169 | the view inside a transaction before its events are copied and the view of its destination afterwards have the same contents if and only if each event that an ancestor of the destination gained meanwhile is hidden by one further in or repeats what the view said |
| CommitVisibility.CommitIsInvisible | packages/core/minos-microservice-aggregate/minos/aggregate/snapshots/repositories/memory.py:154-183 | for a commit in any run, at any depth: the entries before and after are the same exactly under that condition, and then replay gives the same instance or the same tombstone, whatever events mean |
| CommitVisibility.TopLevelCommitIsInvisible | packages/core/minos-microservice-aggregate/minos/aggregate/snapshots/repositories/memory.py:154-183 | for a top-level transaction nothing is asked: its commit is invisible in every interleaving |
| CommitVisibility.CommittedViewIsDestinations | packages/core/minos-microservice-aggregate/minos/aggregate/snapshots/repositories/memory.py:154-183 | once a transaction is COMMITTED, readers inside it and readers of its destination find the same in the same log, at every depth |
| CommitVisibility.OuterWritesAreSeen | packages/core/minos-microservice-aggregate/minos/aggregate/snapshots/repositories/memory.py:154-169 | a run in which a nested commit is seen, because an ancestor of its destination was written meanwhile |
| CommitVisibility.VersionsAscend | packages/core/minos-microservice-aggregate/minos/aggregate/events/repositories/memory.py:45-71 | along the log the versions of an entity within one transaction go up |
| SagaCompensation.ExecuteTracks | packages/core/minos-microservice-saga/minos/saga/executions/saga.py:163-220 | every call of `execute`, whatever its outcome, leaves the executed steps a prefix of the definition, the paused step the next one and every inner execution that of an alternative on offer, at every depth |
| SagaCompensation.RollbackExecTracks | packages/core/minos-microservice-saga/minos/saga/executions/saga.py:222-254 | so does every rollback |
| SagaCompensation.RollbackExecCalls | packages/core/minos-microservice-saga/minos/saga/executions/saga.py:237-254 | a rollback calls exactly the compensations of the completed steps, last first, flattened through conditionals, even if some of them raise outside conditionals; it raises only if one of them does |
| SagaCompensation.RolledBackOnce | packages/core/minos-microservice-saga/minos/saga/executions/saga.py:232-233 | a second rollback calls nothing and raises |
| SagaCompensation.ExecuteCalls | packages/core/minos-microservice-saga/minos/saga/executions/saga.py:163-254 | one call of `execute`, with compensations that may raise outside conditionals: completion or a pause call no compensation; a failure calls exactly the failing step's own, if it is remote and its reply was not handled, and then those of the completed steps, at every depth |
| SagaCompensation.AnswerCalls | packages/core/minos-microservice-saga/minos/saga/executions/steps/remote.py:45-118 | a remote step that gets its reply completes without a compensation, or fails with exactly its own |
| SagaCompensation.FailedCommitCalls | packages/core/minos-microservice-saga/minos/saga/executions/saga.py:256-276 | a commit that fails compensates every completed step |
| SagaCompensation.ResumingForgets | packages/core/minos-microservice-saga/minos/saga/executions/steps/conditional.py:118-138 | resuming a conditional does not depend on the context its inner execution had: it is lost |
| SagaCompensation.NestedRaiseSkips | packages/core/minos-microservice-saga/minos/saga/executions/saga.py:237-244 | the outer rollback stops exactly if the nested one raises, and then leaves all earlier steps uncompensated |
| SagaCompensation.RollbackStopsExactly | packages/core/minos-microservice-saga/minos/saga/executions/saga.py:237-244 | for any list of completed steps: the rollback stops half-way if and only if some nested rollback raises; it then leaves the steps before that one as they are and has called exactly what is due after it and what the nested rollback called; otherwise it calls all that is due, whatever raises |
| SagaUndo.RollbackIsOnePass | packages/core/minos-microservice-saga/minos/saga/executions/steps/conditional.py:140-172 | at any depth: the rollback raises exactly if one right-to-left pass over everything done, with conditionals replaced by the steps of the alternative they chose, meets an exception; its calls, with their contexts, are the first ones of that pass, and all of them, with the context of the pass in the end, unless a nested rollback raises |
| SagaUndo.FailureIsOnePass | packages/core/minos-microservice-saga/minos/saga/executions/saga.py:207-254 | an execution whose step fails makes the calls of the step and then those of the pass, and ends in the failure or in the failed rollback as the pass says |
| SagaUndo.FailedCommitIsOnePass | packages/core/minos-microservice-saga/minos/saga/executions/saga.py:256-276 | so does one whose commit fails |
| SagaUndo.NothingIsUndoneTwice | packages/core/minos-microservice-saga/minos/saga/executions/steps/conditional.py:140-172 | a second rollback of a step, in any environment: one that was rolled back raises without a call, so does a conditional whose nested rollback came to its end, and only a step whose own compensation raised is tried again |
| SagaUndo.StoppedAgain | packages/core/minos-microservice-saga/minos/saga/executions/saga.py:222-254 | a rollback that a nested one stopped stops again at the same step without a call, unless something else had raised |
| SagaUndo.LateCallsDoNothing | packages/core/minos-microservice-saga/minos/saga/executions/saga.py:163-187 | executing a finished or failed execution calls nothing; it raises, except for a late reply to a failed one |
| SagaRelated.ExecuteRelates | packages/core/minos-microservice-saga/minos/saga/executions/steps/remote.py:45-118 | after every call each completed remote step is related to its own service and exactly the services named in the one reply it consumed, each local one to its own, at every depth |
| SagaRelated.RunOfSagaRelates | packages/core/minos-microservice-saga/minos/saga/manager.py:225-254 | over a whole run the completed steps have consumed the first replies of the loop, one for each remote step, and are related accordingly |
| SagaRelated.ParticipantsOfRun | packages/core/minos-microservice-saga/minos/saga/executions/commit.py:117-147 | the list of transactions after a run, whatever it came to: the saga's uuid with exactly its own service, if a step was completed, and the services named in the replies that the completed steps consumed |
| SagaManager.CommitCompensates | packages/core/minos-microservice-saga/minos/saga/manager.py:225-243 | with the commit after the loop: it succeeds without a compensation, or every step of the finished saga is compensated |
| SagaManager.RunCompensates | packages/core/minos-microservice-saga/minos/saga/manager.py:225-254 | over all the calls of a whole run together the compensations are exactly those due; a run that gets no reply calls none |
| SagaManager.RollbackIsCompensate | packages/core/minos-microservice-saga/minos/saga/executions/saga.py:237-244 | the rollback of local and remote steps is the plain right-to-left compensation, with the same context, exception and calls |
| SagaManager.Transparent | packages/core/minos-microservice-saga/minos/saga/executions/saga.py:188-220 | from any point under way, the loop shows the context, ending, calls and number of completed steps of the uninterrupted interpreter |
| SagaManager.PauseIsTransparent | packages/core/minos-microservice-saga/minos/saga/manager.py:225-243 | a saga of local and remote steps, driven through its pauses with any replies, runs as if it never stopped |
| SagaManager.RequestsOnce | packages/core/minos-microservice-saga/minos/saga/executions/steps/remote.py:78-90 | each started step executes its callback exactly once, in order; all of them exactly if the loop ends normally |
| SagaManager.LoopIsShort | packages/core/minos-microservice-saga/minos/saga/manager.py:231-239 | the loop calls `execute` at most once per remote step left and once more |
| SagaExecutions.StepExecution.ExecuteLocal | packages/core/minos-microservice-saga/minos/saga/executions/steps/local.py:30-55 | object, outcome and calls of a local step, new or executed before |
| SagaExecutions.StepExecution.ExecuteRemote | packages/core/minos-microservice-saga/minos/saga/executions/steps/remote.py:45-76 | object, outcome and calls of a remote step, with and without a reply |
| SagaExecutions.StepExecution.ExecuteOnExecute | packages/core/minos-microservice-saga/minos/saga/executions/steps/remote.py:78-90 | the request is published the first time only |
| SagaExecutions.StepExecution.HandleReply | packages/core/minos-microservice-saga/minos/saga/executions/steps/remote.py:59-118 | what a reply does to the object, down to the step's own compensation |
| SagaExecutions.StepExecution.ExecuteConditional | packages/core/minos-microservice-saga/minos/saga/executions/steps/conditional.py:72-90 | choosing the alternative once and running the inner execution object does to the step what the model does to its value, through every level of nesting |
| SagaExecutions.StepExecution.ExecuteInner | packages/core/minos-microservice-saga/minos/saga/executions/steps/conditional.py:118-138 | the inner execution object, run with the outer context, and what its pause, failure or broken rollback makes of the step |
| SagaExecutions.StepExecution.ChooseAlternative | packages/core/minos-microservice-saga/minos/saga/executions/steps/conditional.py:102-109 | the first alternative whose condition holds, or the other one |
| SagaExecutions.StepExecution.Rollback | packages/core/minos-microservice-saga/minos/saga/executions/steps/conditional.py:140-172 | object, context, calls and exception of a step's rollback; a conditional rolls its inner execution object back |
| SagaExecutions.SagaExecution.Rollback | packages/core/minos-microservice-saga/minos/saga/executions/saga.py:222-254 | the loop over the executed steps does to the object what the model does to its value |
| SagaExecutions.SagaExecution.ExecuteOne | packages/core/minos-microservice-saga/minos/saga/executions/saga.py:207-220 | advances, pauses, or rolls back and fails |
| SagaExecutions.SagaExecution.Execute | packages/core/minos-microservice-saga/minos/saga/executions/saga.py:163-205 | one call of `execute` on the object is one call on its value, exceptions included, and keeps the run invariant |
| SagaExecutions.SagaExecution.Commit | packages/core/minos-microservice-saga/minos/saga/executions/saga.py:256-276 | a finished execution whose committer fails is compensated and marked; any other is left |
| SagaStorage.Manager.Loop | packages/core/minos-microservice-saga/minos/saga/manager.py:231-239 | the loop over the object gives the execution, ending, calls and count of the driving function, and stores what it comes back with, once the reply is there |
| SagaStorage.Manager.RunWithPauseOnMemory | packages/core/minos-microservice-saga/minos/saga/manager.py:225-243 | the loop, then the commit, and the rejection exactly after an exception that counts as a failure of the saga |
| SagaStorage.Manager.RunExecution | packages/core/minos-microservice-saga/minos/saga/manager.py:176-210 | the whole managed run: execution, calls, exception, rejection and what is left in storage |
| SagaStorage.FiledSoundly | packages/core/minos-microservice-saga/minos/saga/manager.py:231-239 | the loop touches no other execution in storage, and every one it stores is paused or finished, with every step accounted for |
| SagaStorage.LastRoundIsFiled | packages/core/minos-microservice-saga/minos/saga/manager.py:231-239 | at any time storage holds, of the execution, the last one whose reply had arrived, or the finished one |
| SagaStorage.StorageIsExact | packages/core/minos-microservice-saga/minos/saga/manager.py:176-210 | in the end nothing is left of an execution that succeeded and exactly the errored execution of one that failed; anything else takes a compensation that raises inside a conditional |
| SagaTransparency.ThroughGoesOn | packages/core/minos-microservice-saga/minos/saga/executions/saga.py:188-220 | running on with replies in parts, at any depth, is running on with all of them at once |
| SagaTransparency.AlignedPausesAreTransparent | packages/core/minos-microservice-saga/minos/saga/executions/steps/conditional.py:118-138 | a saga of any shape, driven through its pauses, runs as if it never stopped, if at every pause the inner contexts are the outer one |
| SagaTransparency.PauseIsSeen | packages/core/minos-microservice-saga/minos/saga/executions/steps/conditional.py:126-126 | a saga that ends with another context because it paused inside a conditional |
| SagaResuming.HarmlessAgrees | packages/core/minos-microservice-saga/minos/saga/executions/steps/conditional.py:118-138 | at every level of a harmless execution, resuming with the outermost context gives the same outcome and calls as going on, and the same execution where it is kept |
| SagaResuming.ResumingIsExact | packages/core/minos-microservice-saga/minos/saga/executions/steps/conditional.py:118-138 | a parked execution that gets a reply shows the execution, outcome and calls it would have shown without the pause, for all callbacks and replies, if and only if the innermost context is the outermost one and every context in between is that one too or dead: nothing to compensate on its level, and nothing further in that may wait again |
| SagaResuming.OneConditionalIsExact | packages/core/minos-microservice-saga/minos/saga/executions/steps/conditional.py:118-138 | with one conditional that waits for a reply, this is exactly that the inner context is the outer one |
| SagaResuming.MayPauseIsExact | packages/core/minos-microservice-saga/minos/saga/executions/steps/conditional.py:118-138 | only an execution with a remote step left may wait again, and one with a remote step left may, unless it reuses conditions |
| SagaResuming.ResumingIsDecided | packages/core/minos-microservice-saga/minos/saga/executions/steps/conditional.py:118-138 | the condition as a check on the definition and the executed steps: sufficient always, exact unless conditions are reused |
| SagaResuming.HarmlessPausesAreTransparent | packages/core/minos-microservice-saga/minos/saga/manager.py:225-243 | a valid saga of any shape, driven through its pauses, shows the same ending, execution and calls as if it never stopped, if it is harmless at each of them |
| SagaResuming.DeadContextIsUnseen | packages/core/minos-microservice-saga/minos/saga/executions/steps/conditional.py:118-138 | a saga that parks with the contexts 0, 1, 0: the 1 is lost, and no callbacks and no reply show it |
| SagaRaw.SagaRoundTrip | packages/core/minos-microservice-saga/minos/saga/definitions/saga.py:55-72 | every definition is read back from its raw form |
| SagaRaw.DefRoundTrip | packages/core/minos-microservice-saga/minos/saga/definitions/steps/conditional.py:62-130 | so is every step of it, with nested sagas |
| SagaRaw.StepStatusRoundTrip | packages/core/minos-microservice-saga/minos/saga/executions/status.py:43-79 | no two step statuses are written alike |
| SagaRaw.RoundTrip | packages/core/minos-microservice-saga/minos/saga/executions/saga.py:85-120 | an execution is read back from its raw form if and only if its definition is valid, its executed steps carry the first steps of it, and, at every depth, exactly the conditionals have an inner execution |
| SagaRaw.StepRoundTrip | packages/core/minos-microservice-saga/minos/saga/executions/steps/abc.py:53-84 | the same for one step: the definition it is given must be its own |
| SagaRaw.TrackedIsRestorable | packages/core/minos-microservice-saga/minos/saga/executions/saga.py:300-315 | the run invariant and an inner execution for every conditional suffice |
| SagaRaw.StoredRunIsRestored | packages/core/minos-microservice-saga/minos/saga/manager.py:213-223 | wherever a run stops, the stored execution is read back as it was, if every conditional chose an alternative, or has one for when no condition holds |
| SagaParticipants.Transactions | packages/core/minos-microservice-saga/minos/saga/executions/commit.py:121-146 | the list is strictly ascending and holds exactly the pairs of the local and remote steps at any depth |
| SagaParticipants.Collect | packages/core/minos-microservice-saga/minos/saga/executions/commit.py:131-142 | collects every pair once, through conditionals |
| SagaParticipants.AscendingIsUnique | packages/core/minos-microservice-saga/minos/saga/executions/commit.py:145-146 | there is one such list for every set of pairs |
| SagaParticipants.InvolvedTookPart | packages/core/minos-microservice-saga/minos/saga/executions/commit.py:131-142 | the collected set is the set of pairs for which some step at some depth is responsible |
| FieldDiffs.SetDiff | packages/core/minos-microservice-aggregate/minos/aggregate/collections.py:158-176 | tells every element that came, went or changed, and nothing else |
| FieldDiffs.SetDiffApplies | packages/core/minos-microservice-aggregate/minos/aggregate/collections.py:158-176 | applied in any order to the old collection, the difference gives the new one |
| FieldDiffs.SetDiffEmpty | packages/core/minos-microservice-aggregate/minos/aggregate/collections.py:158-176 | the difference is empty exactly if the collections are the same |
| FieldDiffs.Projection | packages/core/minos-microservice-aggregate/minos/aggregate/entities/models.py:325-333 | fields do not meet: applying a list to all fields is applying to each field its own part |
| FieldDiffs.OrderWithinNames | packages/core/minos-microservice-aggregate/minos/aggregate/entities/models.py:325-333 | only the order within each name counts |
| FieldDiffs.BuildMapper | packages/core/minos-microservice-aggregate/minos/aggregate/events/fields.py:216-220 | the names in order of first appearance, each with its differences in order |
| FieldDiffs.Flatten | packages/core/minos-microservice-aggregate/minos/aggregate/events/fields.py:216-232 | fails exactly if a name has several differences that are not all incremental; otherwise the flattened list |
| FieldDiffs.FlattenedNamed | packages/core/minos-microservice-aggregate/minos/aggregate/events/fields.py:147-160 | flattening keeps the order within each name |
| FieldDiffs.FlattenedPermutes | packages/core/minos-microservice-aggregate/minos/aggregate/events/fields.py:147-160 | flattening is a permutation |
| FieldDiffs.FlattenedApplies | packages/core/minos-microservice-aggregate/minos/aggregate/entities/models.py:313-335 | applying the container is applying the list it was built from |
| EventSourcing.Diff | packages/core/minos-microservice-aggregate/minos/aggregate/events/fields.py:176-190 | for every field: nothing if it is the same, the new plain value, or the difference of the two sets |
| EventSourcing.DiffApplies | packages/core/minos-microservice-aggregate/minos/aggregate/events/fields.py:162-190 | applying the difference to the old instance gives the new one |
| EventSourcing.DiffIsExact | packages/core/minos-microservice-aggregate/minos/aggregate/events/fields.py:162-174 | the difference is empty exactly if the instances agree, and a container accepts it |
| EventSourcing.FromModel | packages/core/minos-microservice-aggregate/minos/aggregate/events/fields.py:192-205 | every field once, with its whole value |
| EventSourcing.ListingApplies | packages/core/minos-microservice-aggregate/minos/aggregate/entities/models.py:337-354 | building from those values gives the instance back |
| EventSourcing.DecomposeKeepsMeaning | packages/core/minos-microservice-aggregate/minos/aggregate/events/models.py:193-208 | applying the single-field events one after the other equals applying the event, except exactly for an event without differences, whose version is then not taken over |
| EventSourcing.ReplayIsLastSave | packages/core/minos-microservice-aggregate/minos/aggregate/entities/models.py:175-354 | for every sequence of creations, saves from any handles, each read and submitted in one go, and deletions: replay gives exactly the values saved last, or the tombstone, and the version is the number of stored events |
| EventSourcing.Repository.Submit | packages/core/minos-microservice-aggregate/minos/aggregate/events/repositories/memory.py:45-63 | the event is appended with the next version |
| EventSourcing.RootEntity.Create | packages/core/minos-microservice-aggregate/minos/aggregate/entities/models.py:199-206 | stores the one event that lists the values |
| EventSourcing.RootEntity.Update | packages/core/minos-microservice-aggregate/minos/aggregate/entities/models.py:232-243 | stores the difference to what is stored now, or nothing if there is none or it cannot be read |
| EventSourcing.RootEntity.ApplyDiff | packages/core/minos-microservice-aggregate/minos/aggregate/entities/models.py:313-335 | the loop over the flattened differences, with its exception |
| ConcurrentSaves.DiffIsExactNow | packages/core/minos-microservice-aggregate/minos/aggregate/entities/models.py:313-335 | a difference applied to whatever is stored now gives the saved values exactly if that agrees with them wherever the difference is silent |
| ConcurrentSaves.SubmitIsExact | packages/core/minos-microservice-aggregate/minos/aggregate/entities/models.py:232-243 | the submission of a save that read earlier shows its values exactly then, and the store stays sound in any case |
| ConcurrentSaves.OverlappingSavesAreExact | packages/core/minos-microservice-aggregate/minos/aggregate/entities/models.py:175-354 | in every run in which saves read and submit at different times, readers find what was saved last at every point if and only if every submission agrees so |
| ConcurrentSaves.UndisturbedAgrees | packages/core/minos-microservice-aggregate/minos/aggregate/entities/models.py:232-243 | a save whose reading is still what is stored agrees |
| ConcurrentSaves.MixedSaves | packages/core/minos-microservice-aggregate/minos/aggregate/entities/models.py:232-243 | a run of two overlapping saves that leaves values nobody saved |
| SnapshotTable.ReadShows | packages/core/minos-microservice-aggregate/minos/aggregate/snapshots/repositories/database/impl.py:181-206 | what is decided for an event from the global row of a table that is at least that far is the replay up to the event, or nothing if the event was dispatched before |
| SnapshotTable.WriteDecides | packages/core/minos-microservice-aggregate/minos/aggregate/snapshots/repositories/database/impl.py:212-218 | whatever was decided, inside or outside a transaction: the write leaves the row that shows the replay if it fits the row it finds and, if no entity is revived, only then |
| SnapshotTable.OutsideIsGuarded | packages/core/minos-microservice-aggregate/minos/aggregate/snapshots/repositories/database/impl.py:192-218 | outside transactions it fits exactly if the row that is found is not newer |
| SnapshotTable.WriteIsExact | packages/core/minos-microservice-aggregate/minos/aggregate/snapshots/repositories/database/impl.py:163-218 | the same for all readers and entities: such writes keep every reader seeing the replay, and no others do |
| SnapshotTable.DispatchRaises | packages/core/minos-microservice-aggregate/minos/aggregate/snapshots/repositories/database/impl.py:192-210 | a global event that is looked up in the global row stops a synchronisation exactly if it follows a deletion or cannot be applied |
| SnapshotTable.BaseKeeps | packages/core/minos-microservice-aggregate/minos/aggregate/snapshots/repositories/database/impl.py:134-161 | appends, saves of transactions and the parts of any number of synchronisations, interleaved in any way, keep the offsets, the ends of transactions and the rows of ended transactions in order; the stored offset never falls |
| SnapshotTable.StepKeeps | packages/core/minos-microservice-aggregate/minos/aggregate/snapshots/repositories/database/impl.py:134-218 | and, with writes that fit, the table shows the replay and every pending write that was decided outside transactions is the replay up to its event |
| SnapshotTable.SnapshotIsReplayExactly | packages/core/minos-microservice-aggregate/minos/aggregate/snapshots/repositories/database/impl.py:134-218 | with any number of overlapping synchronisations, begun inside transactions or outside, the table shows the replay at every point of a run if every write of a global event fits the row it finds and, if no entity is revived, only then |
| SnapshotTable.SnapshotIsReplay | packages/core/minos-microservice-aggregate/minos/aggregate/snapshots/repositories/database/impl.py:134-206 | if dispatching one event is not interrupted and global events are looked up in global rows, any number of synchronisations may overlap: each global row is the replay of the events dispatched so far, which are those up to the stored offset once no synchronisation is ahead of it |
| SnapshotTable.SlowWriteIsLost | packages/core/minos-microservice-aggregate/minos/aggregate/snapshots/repositories/database/impl.py:212-218 | a run with two synchronisations that leaves an old row for good, though both came to their end and the stored offset covers the log |
| SnapshotTable.InsideReadIsLost | packages/core/minos-microservice-aggregate/minos/aggregate/snapshots/repositories/abc.py:198-205 | a run in which a single read inside a transaction loses a global event: it finds the transaction's own row, passes the event over and stores an offset beyond it |
| SnapshotTable.InsideReadLeaks | packages/core/minos-microservice-aggregate/minos/aggregate/snapshots/repositories/abc.py:198-205 | a run in which such a read puts what an open transaction wrote into the global row |
| SnapshotTable.LateIsExact | packages/core/minos-microservice-aggregate/minos/aggregate/snapshots/repositories/database/impl.py:220-227 | of a table without rows of transactions that ended by an offset that is stored, or that a synchronisation is about to store after its clean-up, exactly the late writes make one with such rows |
| SnapshotTable.CleanUpIsExact | packages/core/minos-microservice-aggregate/minos/aggregate/snapshots/repositories/database/impl.py:134-227 | with any number of synchronisations there is no such row at any point of a run if and only if no row of a transaction that had ended by an offset stored or about to be stored was written |
| SnapshotTable.CleanUpIsComplete | packages/core/minos-microservice-aggregate/minos/aggregate/snapshots/repositories/database/impl.py:220-227 | after a synchronisation ended at an offset, a row of a transaction that ended by then is there only if some synchronisation, under way or broken off, has dispatched an event of it and has not cleaned up since |
| SnapshotTable.SlowDispatchLeaks | packages/core/minos-microservice-aggregate/minos/aggregate/snapshots/repositories/database/impl.py:134-148 | a run with a late write, in which such a row comes back after the clean-up and its synchronisation is broken off |
| SnapshotTable.LeakedRowStays | packages/core/minos-microservice-aggregate/minos/aggregate/snapshots/repositories/database/impl.py:220-227 | such a row then stays for ever, whatever happens |
| SnapshotTable.DatabaseSnapshotRepository.Synchronize | packages/core/minos-microservice-aggregate/minos/aggregate/snapshots/repositories/database/impl.py:134-148 | in the transaction of any reader and whatever others are half done: if its reads of global events are direct, afterwards every global row is the replay of the whole log, or an exception left the offset as it was; with no others, no row of an ended transaction is left but of those that ended last |
| SnapshotTable.OutsideIsDirect | packages/core/minos-microservice-aggregate/minos/aggregate/snapshots/repositories/database/impl.py:181-190 | outside transactions all reads are direct |
| TransactionRows.SeenThenOwn | packages/core/minos-microservice-aggregate/minos/aggregate/snapshots/repositories/database/impl.py:181-206 | what a transaction sees of an entity it has written: what its chain showed at its first write, and then its own events in order |
| TransactionRows.StepFits | packages/core/minos-microservice-aggregate/minos/aggregate/snapshots/repositories/database/impl.py:134-227 | every step of the table, with uninterrupted dispatches, keeps each row of an open transaction the replay of what it sees |
| TransactionRows.OwnRowIsReplay | packages/core/minos-microservice-aggregate/minos/aggregate/snapshots/repositories/database/impl.py:181-206 | in every run: such a row is the replay of what the chain showed at the first write followed by the transaction's own dispatched events in order |
| TransactionRows.InsideReadsAreReplay | packages/core/minos-microservice-aggregate/minos/aggregate/snapshots/repositories/abc.py:172-215 | an open transaction has rows of exactly the entities it has written, and a reader inside it finds the replay of what it sees |
| OverlayRows.SeenIsOverlay | packages/core/minos-microservice-aggregate/minos/aggregate/snapshots/repositories/memory.py:154-169 | as long as nobody on the chain writes the entity after one further in has, what is seen is the overlay |
| OverlayRows.RowsShowOverlay | packages/core/minos-microservice-aggregate/minos/aggregate/snapshots/repositories/database/impl.py:181-206 | then a reader of the table inside an open transaction finds the replay of the overlay that is computed from the log |
| ProtocolSnapshots.ProtocolLogAscends | packages/core/minos-microservice-aggregate/minos/aggregate/events/repositories/memory.py:45-71 | in every run of the transaction protocol the global versions of an entity go up along the log, as the snapshot table assumes |
| ProtocolSnapshots.ProtocolStepIsTableStep | packages/core/minos-microservice-aggregate/minos/aggregate/transactions/entries.py:140-267 | every step of the protocol is at most one step of the table's world (no event after the end of its transaction, final statuses with the length of the log plus one), and one that its rules allow exactly if it is not a copy into a destination rejected in the meantime |
| TypeHints.Reflexive | packages/core/minos-microservice-common/minos/common/model/types/comparators.py:71-109 | every type hint matches itself |
| TypeHints.Transitive | packages/core/minos-microservice-common/minos/common/model/types/comparators.py:71-116 | matching is transitive over all type terms, with inheritance and bucket models |
| TypeHints.ClassesMatch | packages/core/minos-microservice-common/minos/common/model/types/comparators.py:101-116 | classes match along inheritance; generics if their origins and all arguments do; a class and a generic never |
| TypeHints.ModelsMatch | packages/core/minos-microservice-common/minos/common/model/types/model_types.py:137-229 | models match along inheritance, into buckets, or under one name field by field, and of the classes only the root |
| TypeHints.ModelsTransitive | packages/core/minos-microservice-common/minos/common/model/types/model_types.py:137-229 | model types in between keep transitivity, for each way in which two of them may match |
| TypeHints.UnionIsJoin | packages/core/minos-microservice-common/minos/common/model/types/comparators.py:84-88 | a union matches exactly what each of its options matches |
| TypeHints.AnythingIsTop | packages/core/minos-microservice-common/minos/common/model/types/comparators.py:81-82 | everything matches Any, and Any matches no other type but unions and variables |
| TypeHints.VariableIsAlias | packages/core/minos-microservice-common/minos/common/model/types/comparators.py:74-79 | a type variable matches, and is matched by, exactly what it unpacks to matches |
| CardNumber.ValidateCard | tutorials/eboutique/microservices/payment/src/commands/services.py:19-33 | accepts exactly the strings of digits whose sum, every second digit from the right doubled, is a multiple of ten; fails exactly on characters that are no digit in any script |
| CardNumber.SlicesAddUp | tutorials/eboutique/microservices/payment/src/commands/services.py:24-29 | the two slices together weigh every digit once |
| CardNumber.OneDigitIsNoticed | tutorials/eboutique/microservices/payment/src/commands/services.py:19-33 | changing one digit of an accepted number makes it rejected |
| CardNumber.ExchangeIsNoticed | tutorials/eboutique/microservices/payment/src/commands/services.py:19-33 | exchanging two neighbours of an accepted number makes it rejected, exactly unless they are equal or a 0 and a 9 |

## Left out

- Brokers, databases, discovery, HTTP, scheduling, pools, dependency injection, configuration and logging: brokers are sets of messages and lists of replies here, databases are maps, and the rest has no deep property.
- Avro and JSON encodings, import paths: assumed lossless; `Ref` extraction and resolution, query conditions and orderings are not modelled.
- Publication of events after a submission, and datetimes: they do not affect the properties.
- Timing of the blocked-reservation sweep and of broker timeouts: steps that may happen, not clocks.
- A failing publication inside the coordinator, after which some services know of the decision and others do not: agreement is stated for publications that do not fail.
- Building sagas step by step (`local_step`, `remote_step`, `if_then`, `commit` of a definition): easy members; a definition is a value here.
- The projection of generic models in the comparison of type hints: a model is given by its name and its fields.
- TransactionEntries.TransactionRepository.Select: the filters by offsets and dates.
- RepeatedWrites.RepeatedWritesCommit: top-level transactions only; below that level the condition is `FirstVersionDecides`, and no runs are considered.
- SagaStorage.Manager.RunExecution: pauses in memory; pausing on disk, the related services in the request headers and the lookup of a stored execution are not modelled.
- TwoPhaseCommit.SweepIsHarmlessExactly: the converse is for when everybody has answered; before that, whether a commit can still be decided is up to the services that are still to be asked.
- SagaResuming.ResumingIsDecided: the check is not exact for conditions that are used for several alternatives.
- TwoPhaseCommit.Agreement: reserve requests and replies arrive at most once.
- SagaExecutions.SagaExecution.Execute: the executed and paused steps are values in its fields, from which an object is made when one is executed or rolled back, so aliasing between them is not captured.
- FieldDiffs.SetDiff: sets are values here; `add` and `discard` in place are `Added` and `Discarded`.
- EventSourcing.Repository.Submit: one entity outside transactions, where no submission is refused; refusals and collisions are those of `TransactionEntries.EventRepository.Submit`.
- SnapshotTable.SnapshotIsReplayExactly: says nothing of rows that belong to transactions (`TransactionRows.OwnRowIsReplay` does); its converse is for logs in which no entity is revived.
- TransactionRows.OwnRowIsReplay: rows of transactions inside ended ones are not covered, and dispatches are not interrupted.
- SnapshotTable.WriteDecides: the converse, likewise, for logs in which no entity is revived.
- SagaRaw.RoundTrip: the class of a step execution is taken to be that of its definition.
- EventSourcing.ReplayIsLastSave: one entity outside transactions, of a class whose fields keep their kinds; submissions are not refused, and a save is one step (`ConcurrentSaves.OverlappingSavesAreExact` splits it).
- EventSourcing.RootEntity.Update: takes the handle with its new values set.
