/**
  What the two-phase commit decides and what comes of it, in terms of what has happened so far: which
  replies arrived, what was sent, and which rejections were delivered.
 */
module TwoPhaseOutcome {
  import opened Wrappers
  import TP = TransactionProtocol
  import opened TwoPhaseCommit

  // ---------------------------------------------------------------- what has happened

  /** A reply of p with this answer has reached the coordinator. */
  ghost predicate Answered(worlds: seq<World>, events: seq<Event>, k: nat, p: Participant, ok: bool) {
    exists j :: 0 <= j < k && ReplyAt(worlds, events, j, p, ok)
  }

  predicate ReplyAt(worlds: seq<World>, events: seq<Event>, j: nat, p: Participant, ok: bool) {
    j < |events| && j < |worlds| && events[j] == ReceiveReply(p) && p in worlds[j].replies && worlds[j].replies[p] == ok
  }

  ghost predicate AllAgreed(participants: set<Participant>, worlds: seq<World>, events: seq<Event>, k: nat) {
    forall p :: p in participants ==> Answered(worlds, events, k, p, true)
  }

  /** All have answered, and not all of them positively. */
  ghost predicate SomeRefused(participants: set<Participant>, worlds: seq<World>, events: seq<Event>, k: nat) {
    (forall p :: p in participants ==> Answered(worlds, events, k, p, true) || Answered(worlds, events, k, p, false)) &&
    exists p :: p in participants && Answered(worlds, events, k, p, false)
  }

  /** Rejections were sent, or the decision fell against the commit. */
  ghost predicate GivenUp(participants: set<Participant>, worlds: seq<World>, events: seq<Event>, k: nat) {
    exists j :: 0 <= j < k && j < |events| &&
      (events[j] == SendRejects || (events[j] == Decide && SomeRefused(participants, worlds, events, j)))
  }

  predicate Told(events: seq<Event>, k: nat, p: Participant) {
    exists j :: 0 <= j < k && j < |events| && events[j] == DeliverReject(p)
  }

  predicate Stored(w: World, p: Participant) {
    p.service in w.services && p.uuid in w.services[p.service].table
  }

  lemma {:induction false} RunSteps(bases: string -> TP.Base, participants: set<Participant>, worlds: seq<World>, events: seq<Event>,
                                    k: nat)
    requires Run(bases, participants, worlds, events) && k < |events|
    ensures |worlds| == |events| + 1 && Enabled(worlds[k], events[k]) && worlds[k + 1] == Apply(participants, worlds[k], events[k])
  {
    assert Permitted(bases, participants, worlds[k], events[k]);
    hide TP.Inv, Apply, TP.Permitted;
  }

  // ---------------------------------------------------------------- the decision

  /** What the coordinator has counted is what has arrived. */
  ghost predicate Counted(participants: set<Participant>, worlds: seq<World>, events: seq<Event>, k: nat)
    requires k < |worlds|
  {
    (forall p :: p in worlds[k].heard <==> Answered(worlds, events, k, p, true) || Answered(worlds, events, k, p, false)) &&
    (worlds[k].allOk <==> forall p :: !Answered(worlds, events, k, p, false)) &&
    (forall p :: !(Answered(worlds, events, k, p, true) && Answered(worlds, events, k, p, false)))
  }

  lemma {:induction false} AnsweredNext(worlds: seq<World>, events: seq<Event>, k: nat, p: Participant, ok: bool)
    ensures Answered(worlds, events, k + 1, p, ok) <==> Answered(worlds, events, k, p, ok) || ReplyAt(worlds, events, k, p, ok)
  {
  }

  lemma {:induction false} RunCounts(bases: string -> TP.Base, participants: set<Participant>, worlds: seq<World>, events: seq<Event>,
                                     k: nat)
    requires Run(bases, participants, worlds, events) && k < |worlds|
    ensures Counted(participants, worlds, events, k)
  {
    hide TP.Inv, TP.Apply;
    if k > 0 {
      RunCounts(bases, participants, worlds, events, k - 1);
      RunKeeps(bases, participants, worlds, events, k - 1);
      assert Permitted(bases, participants, worlds[k - 1], events[k - 1]);
      StepCounts(participants, worlds, events, k - 1);
    }
  }

  lemma {:induction false} OtherEvents(participants: set<Participant>, w: World, event: Event)
    requires Enabled(w, event) && !event.ReceiveReply?
    ensures Apply(participants, w, event).heard == w.heard && Apply(participants, w, event).allOk == w.allOk
  {
    hide TP.Apply, Has, ReserveSucceeds;
  }

  lemma {:induction false} StepCounts(participants: set<Participant>, worlds: seq<World>, events: seq<Event>, k: nat)
    requires k < |events| && k + 1 < |worlds| && Counting(participants, worlds[k]) && Counted(participants, worlds, events, k)
    requires Enabled(worlds[k], events[k]) && worlds[k + 1] == Apply(participants, worlds[k], events[k])
    ensures Counted(participants, worlds, events, k + 1)
  {
    if events[k].ReceiveReply? {
      assert events[k].p !in worlds[k].heard;
      hide Counted, Counting;
      ReplyCounts(participants, worlds, events, k, events[k].p);
    } else {
      OtherEvents(participants, worlds[k], events[k]);
      hide Apply, Enabled, Counting;
      OthersCount(participants, worlds, events, k);
    }
  }

  lemma {:induction false} OthersCount(participants: set<Participant>, worlds: seq<World>, events: seq<Event>, k: nat)
    requires k < |events| && k + 1 < |worlds| && Counted(participants, worlds, events, k) && !events[k].ReceiveReply?
    requires worlds[k + 1].heard == worlds[k].heard && worlds[k + 1].allOk == worlds[k].allOk
    ensures Counted(participants, worlds, events, k + 1)
  {
    var n := k + 1;
    forall p
      ensures p in worlds[n].heard <==> Answered(worlds, events, n, p, true) || Answered(worlds, events, n, p, false)
      ensures !(Answered(worlds, events, n, p, true) && Answered(worlds, events, n, p, false))
    {
      AnsweredNext(worlds, events, k, p, true);
      AnsweredNext(worlds, events, k, p, false);
    }
    if worlds[k].allOk {
      forall p ensures !Answered(worlds, events, n, p, false) { AnsweredNext(worlds, events, k, p, false); }
    } else {
      var p :| Answered(worlds, events, k, p, false);
      AnsweredNext(worlds, events, k, p, false);
    }
  }

  lemma {:induction false} ReplyCounts(participants: set<Participant>, worlds: seq<World>, events: seq<Event>, k: nat, x: Participant)
    requires k < |events| && k + 1 < |worlds| && Counted(participants, worlds, events, k) && events[k] == ReceiveReply(x)
    requires x in worlds[k].replies && x !in worlds[k].heard && worlds[k + 1].heard == worlds[k].heard + {x}
    requires worlds[k + 1].allOk == (worlds[k].allOk && worlds[k].replies[x])
    ensures Counted(participants, worlds, events, k + 1)
  {
    var n := k + 1;
    forall p
      ensures p in worlds[n].heard <==> Answered(worlds, events, n, p, true) || Answered(worlds, events, n, p, false)
      ensures !(Answered(worlds, events, n, p, true) && Answered(worlds, events, n, p, false))
    {
      AnsweredNext(worlds, events, k, p, true);
      AnsweredNext(worlds, events, k, p, false);
    }
    if worlds[k + 1].allOk {
      forall p ensures !Answered(worlds, events, n, p, false) { AnsweredNext(worlds, events, k, p, false); }
    } else if worlds[k].allOk {
      AnsweredNext(worlds, events, k, x, false);
    } else {
      var p :| Answered(worlds, events, k, p, false);
      AnsweredNext(worlds, events, k, p, false);
    }
  }

  /**
    The decision, exactly: for the commit if every participant has answered that it is reserved, against it if all have
    answered and one refused, and in either case everybody is told; until then nothing happens.
   */
  lemma {:induction false} DecisionIsExact(bases: string -> TP.Base, participants: set<Participant>, worlds: seq<World>,
                                           events: seq<Event>, k: nat)
    requires Run(bases, participants, worlds, events) && k < |events| && events[k] == Decide
    ensures AllAgreed(participants, worlds, events, k) <==> worlds[k + 1].phase == Committing
    ensures worlds[k + 1].phase == Committing ==> worlds[k + 1].commits == participants && worlds[k + 1].rejects == {}
    ensures SomeRefused(participants, worlds, events, k) <==> worlds[k + 1].phase == Failed
    ensures worlds[k + 1].phase == Failed ==> worlds[k + 1].rejects == participants && worlds[k + 1].commits == {}
    ensures worlds[k + 1].phase in {Committing, Failed} || worlds[k + 1] == worlds[k]
    ensures worlds[k + 1].services == worlds[k].services
  {
    RunCounts(bases, participants, worlds, events, k);
    RunKeeps(bases, participants, worlds, events, k);
    hide TP.Apply, Answered, Promises, TP.Inv;
    var w := worlds[k];
    assert Permitted(bases, participants, w, events[k]) && worlds[k + 1] == Apply(participants, w, Decide);
    if w.received == |participants| {
      EverybodyAnswered(participants, w.heard);
    } else {
      assert w.heard != participants;
      var p :| p in participants && p !in w.heard;
    }
  }

  /** The reply of a service tells exactly whether a pending transaction has been reserved. */
  lemma {:induction false} ReplyIsExact(bases: string -> TP.Base, participants: set<Participant>, worlds: seq<World>,
                                        events: seq<Event>, k: nat, p: Participant)
    requires Run(bases, participants, worlds, events) && k < |events| && events[k] == DeliverReserve(p)
    ensures p in worlds[k + 1].replies
    ensures worlds[k + 1].replies[p] <==> Has(worlds[k], p, {TP.Pending}) && Has(worlds[k + 1], p, {TP.Reserved})
  {
    hide TP.Committable, TP.Inv, TP.Permitted;
    assert Permitted(bases, participants, worlds[k], events[k]) && worlds[k + 1] == Apply(participants, worlds[k], events[k]);
  }

  /** The coordinator has stopped waiting for replies. */
  predicate TimedOut(events: seq<Event>, k: nat) {
    exists j :: 0 <= j < k && j < |events| && events[j] == Timeout
  }

  /** Decisions stand: after a timeout or a decision against it nothing is committed any more, and a commit is not taken back. */
  lemma {:induction false} DecisionsStand(bases: string -> TP.Base, participants: set<Participant>, worlds: seq<World>,
                                          events: seq<Event>, j: nat, k: nat)
    requires Run(bases, participants, worlds, events) && j <= k < |worlds|
    ensures worlds[j].phase in {Committing, Failed} ==> worlds[k].phase == worlds[j].phase
    ensures TimedOut(events, j) || GivenUp(participants, worlds, events, j) ==>
              worlds[k].phase == Failed && worlds[k].commits == {} && forall p :: p in participants ==> !Entered(worlds[k], p)
    decreases k
  {
    hide Apply, Enabled, SomeRefused, Entered, Run;
    LengthsFit(bases, participants, worlds, events);
    PhaseStays(bases, participants, worlds, events, j, k);
    if TimedOut(events, j) || GivenUp(participants, worlds, events, j) {
      StoppedIsFailed(bases, participants, worlds, events, j);
      RunKeeps(bases, participants, worlds, events, k);
    }
  }

  lemma {:induction false} PhaseStays(bases: string -> TP.Base, participants: set<Participant>, worlds: seq<World>,
                                      events: seq<Event>, j: nat, k: nat)
    requires Run(bases, participants, worlds, events) && j <= k < |worlds|
    ensures worlds[j].phase in {Committing, Failed} ==> worlds[k].phase == worlds[j].phase
    decreases k
  {
    hide Run, Apply, Enabled;
    LengthsFit(bases, participants, worlds, events);
    if j < k {
      PhaseStays(bases, participants, worlds, events, j, k - 1);
      RunSteps(bases, participants, worlds, events, k - 1);
      if worlds[j].phase in {Committing, Failed} { FinalPhase(participants, worlds[k - 1], events[k - 1]); }
    }
  }

  lemma {:induction false} FinalPhase(participants: set<Participant>, w: World, event: Event)
    requires Enabled(w, event) && w.phase in {Committing, Failed}
    ensures Apply(participants, w, event).phase == w.phase
  {
    hide TP.Apply, Has, ReserveSucceeds;
  }

  lemma {:induction false} StoppedIsFailed(bases: string -> TP.Base, participants: set<Participant>, worlds: seq<World>,
                                           events: seq<Event>, k: nat)
    requires Run(bases, participants, worlds, events) && k < |worlds| && (TimedOut(events, k) || GivenUp(participants, worlds, events, k))
    ensures worlds[k].phase == Failed
  {
    hide Run, Apply, SomeRefused, Enabled;
    LengthsFit(bases, participants, worlds, events);
    var j :| 0 <= j < k && (events[j] == Timeout || events[j] == SendRejects ||
                            (events[j] == Decide && SomeRefused(participants, worlds, events, j)));
    RunSteps(bases, participants, worlds, events, j);
    if events[j] == Decide {
      DecisionIsExact(bases, participants, worlds, events, j);
    } else {
      Stopping(participants, worlds[j], events[j]);
    }
    PhaseStays(bases, participants, worlds, events, j + 1, k);
  }

  lemma {:induction false} Stopping(participants: set<Participant>, w: World, event: Event)
    requires Enabled(w, event) && event in {Timeout, SendRejects}
    ensures Apply(participants, w, event).phase == Failed
  {
  }

  // ---------------------------------------------------------------- rejections

  /** Once the coordinator has given up, everybody is being told. */
  lemma {:induction false} RejectionsAreSent(bases: string -> TP.Base, participants: set<Participant>, worlds: seq<World>,
                                             events: seq<Event>, k: nat)
    requires Run(bases, participants, worlds, events) && k < |worlds| && GivenUp(participants, worlds, events, k)
    ensures forall p :: p in participants ==> p in worlds[k].rejects
  {
    hide Run, Apply, SomeRefused, Enabled;
    LengthsFit(bases, participants, worlds, events);
    if k > 0 {
      if GivenUp(participants, worlds, events, k - 1) {
        RejectionsAreSent(bases, participants, worlds, events, k - 1);
        RejectsStay(bases, participants, worlds, events, k - 1);
      } else if events[k - 1] == Decide {
        DecisionIsExact(bases, participants, worlds, events, k - 1);
      } else {
        RunSteps(bases, participants, worlds, events, k - 1);
        SendingRejects(participants, worlds[k - 1]);
      }
    }
  }

  lemma {:induction false} SendingRejects(participants: set<Participant>, w: World)
    requires Enabled(w, SendRejects)
    ensures Apply(participants, w, SendRejects).rejects == participants
  {
  }

  lemma {:induction false} RejectsStay(bases: string -> TP.Base, participants: set<Participant>, worlds: seq<World>, events: seq<Event>,
                                       k: nat)
    requires Run(bases, participants, worlds, events) && k < |events| && forall p :: p in participants ==> p in worlds[k].rejects
    ensures forall p :: p in participants ==> p in worlds[k + 1].rejects
  {
    RunKeeps(bases, participants, worlds, events, k);
    assert Permitted(bases, participants, worlds[k], events[k]) && worlds[k + 1] == Apply(participants, worlds[k], events[k]);
    hide TP.Apply, Counting, Promises, Has;
  }

  /** A rejection that is waiting is delivered as soon as the service is not in the middle of a commit. */
  lemma {:induction false} RejectionIsWaiting(bases: string -> TP.Base, participants: set<Participant>, worlds: seq<World>,
                                              events: seq<Event>, k: nat, p: Participant)
    requires Run(bases, participants, worlds, events) && k < |worlds| && GivenUp(participants, worlds, events, k)
    requires p in participants && p.service in worlds[k].services && worlds[k].services[p.service].running.None?
    ensures Permitted(bases, participants, worlds[k], DeliverReject(p))
  {
    RejectionsAreSent(bases, participants, worlds, events, k);
  }

  lemma {:induction false} RejectionArrives(bases: string -> TP.Base, participants: set<Participant>, worlds: seq<World>,
                                            events: seq<Event>, k: nat, p: Participant)
    requires Run(bases, participants, worlds, events) && k < |events| && p in participants
    requires events[k] == DeliverReject(p) && Stored(worlds[k], p)
    ensures Has(worlds[k + 1], p, {TP.Rejected})
  {
    RunKeeps(bases, participants, worlds, events, k);
    var w := worlds[k];
    assert Permitted(bases, participants, w, events[k]) && worlds[k + 1] == Apply(participants, w, events[k]);
    assert !Entered(w, p) && w.services[p.service].running.None? by { hide TP.Apply, Counting, Promises; }
    assert w.services[p.service].table[p.uuid].status != TP.Reserving by { NoneIsReserving(bases, participants, worlds, events, k, p); }
  }

  lemma {:induction false} NoneIsReserving(bases: string -> TP.Base, participants: set<Participant>, worlds: seq<World>,
                                           events: seq<Event>, k: nat, p: Participant)
    requires Run(bases, participants, worlds, events) && k < |worlds| && Stored(worlds[k], p)
    ensures worlds[k].services[p.service].table[p.uuid].status != TP.Reserving
  {
    KeysStay(bases, participants, worlds, events, k);
    RunKeepsServices(bases, participants, worlds, events, k, p.service);
    hide TP.CountersExact, TP.AllReady, TP.Exclusive, TP.SourcesExact, TP.RunningExact;
    assert TP.Shape(worlds[k].services[p.service]);
  }

  /** A rejected participant stays rejected, whatever reaches its service. */
  lemma {:induction false} RejectedForEver(bases: string -> TP.Base, participants: set<Participant>, worlds: seq<World>,
                                           events: seq<Event>, j: nat, k: nat, p: Participant)
    requires Run(bases, participants, worlds, events) && j <= k < |worlds| && Has(worlds[j], p, {TP.Rejected})
    ensures Has(worlds[k], p, {TP.Rejected})
    decreases k
  {
    hide Run, Has, Apply, Enabled;
    if j < k {
      LengthsFit(bases, participants, worlds, events);
      RejectedForEver(bases, participants, worlds, events, j, k - 1, p);
      RunSteps(bases, participants, worlds, events, k - 1);
      RejectedStaysSo(participants, worlds[k - 1], events[k - 1], p);
    }
  }

  lemma {:induction false} RejectedStaysSo(participants: set<Participant>, w: World, event: Event, p: Participant)
    requires Enabled(w, event) && Has(w, p, {TP.Rejected})
    ensures Has(Apply(participants, w, event), p, {TP.Rejected})
  {
    hide TP.Apply, ReserveSucceeds;
    forall w: World, service, step | service in w.services && Has(w, p, {TP.Rejected})
      ensures Has(Perform(w, service, step), p, {TP.Rejected})
    {
      FinalInService(w.services[service], step, p.uuid);
    }
    hide Perform;
  }

  lemma {:induction false} FinalInService(s: TP.State, step: TP.Step, uuid: Uuid)
    ensures TP.HasStatus(s.table, uuid, {TP.Rejected}) ==> TP.HasStatus(TP.Apply(s, step).table, uuid, {TP.Rejected})
  {
    hide TP.Committable, TP.Positions;
  }

  /**
    Rejections release: a participant that was stored when its rejection was delivered, pending, reserved or rejected
    already, is REJECTED from then on.
   */
  lemma {:induction false} RejectionReleases(bases: string -> TP.Base, participants: set<Participant>, worlds: seq<World>,
                                             events: seq<Event>, j: nat, k: nat, p: Participant)
    requires Run(bases, participants, worlds, events) && j < k < |worlds| && p in participants
    requires events[j] == DeliverReject(p) && Stored(worlds[j], p)
    ensures Has(worlds[k], p, {TP.Rejected})
  {
    RejectionArrives(bases, participants, worlds, events, j, p);
    RejectedForEver(bases, participants, worlds, events, j + 1, k, p);
  }

  lemma {:induction false} StoredStays(bases: string -> TP.Base, participants: set<Participant>, worlds: seq<World>, events: seq<Event>,
                                       k: nat, p: Participant)
    requires Run(bases, participants, worlds, events) && k < |worlds| && Stored(worlds[0], p)
    ensures Stored(worlds[k], p)
  {
    hide Run, Stored, Apply, Enabled;
    if k > 0 {
      LengthsFit(bases, participants, worlds, events);
      StoredStays(bases, participants, worlds, events, k - 1, p);
      RunSteps(bases, participants, worlds, events, k - 1);
      StoredStaysSo(participants, worlds[k - 1], events[k - 1], p);
    }
  }

  lemma {:induction false} StoredStaysSo(participants: set<Participant>, w: World, event: Event, p: Participant)
    requires Enabled(w, event) && Stored(w, p)
    ensures Stored(Apply(participants, w, event), p)
  {
    hide TP.Apply, ReserveSucceeds, Has;
    forall w: World, service, step | service in w.services && Stored(w, p) ensures Stored(Perform(w, service, step), p) {
      KeptInService(w.services[service], step);
    }
    hide Perform;
  }

  lemma {:induction false} KeptInService(s: TP.State, step: TP.Step)
    ensures s.table.Keys <= TP.Apply(s, step).table.Keys
  {
    hide TP.Committable, TP.Positions;
  }

  /** Once every rejection is delivered, no participant is left pending or reserved: each is REJECTED. */
  lemma {:induction false} DeliveredRejections(bases: string -> TP.Base, participants: set<Participant>, worlds: seq<World>,
                                               events: seq<Event>, k: nat)
    requires Run(bases, participants, worlds, events) && k < |worlds|
    requires forall p :: p in participants ==> Stored(worlds[0], p) && Told(events, k, p)
    ensures forall p :: p in participants ==> Has(worlds[k], p, {TP.Rejected})
  {
    hide Run, Has;
    forall p | p in participants ensures Has(worlds[k], p, {TP.Rejected}) {
      var j :| 0 <= j < k && j < |events| && events[j] == DeliverReject(p);
      LengthsFit(bases, participants, worlds, events);
      StoredStays(bases, participants, worlds, events, j, p);
      RejectionReleases(bases, participants, worlds, events, j, k, p);
    }
  }

  lemma {:induction false} LengthsFit(bases: string -> TP.Base, participants: set<Participant>, worlds: seq<World>, events: seq<Event>)
    requires Run(bases, participants, worlds, events)
    ensures |worlds| == |events| + 1
  {
  }
}
