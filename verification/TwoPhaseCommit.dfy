/**
  Two-phase commit across services: one coordinator, any set of participants, each of them a
  transaction stored in a service that runs the protocol of `TransactionProtocol` with whatever other
  work it has. Messages wait, overtake each other and, for commits and rejections, arrive any number
  of times or never.
 */
module TwoPhaseCommit {
  import opened Wrappers
  import TP = TransactionProtocol
  import TransactionSafety
  import TransactionTheorems

  type Uuid = TP.Uuid

  datatype Participant = Participant(uuid: Uuid, service: string)

  datatype Phase = Start | Waiting | Committing | Failed

  /**
    `received` and `allOk` are all the coordinator learns from replies: it does not look at senders.
    `heard` and `delivered` are history: whose replies were counted, who was handed a commit message.
   */
  datatype World = World(
    services: map<string, TP.State>,
    phase: Phase,
    toReserve: set<Participant>,
    replies: map<Participant, bool>,
    received: nat,
    allOk: bool,
    commits: set<Participant>,
    rejects: set<Participant>,
    heard: set<Participant>,
    delivered: set<Participant>)

  datatype Event =
    | Local(service: string, step: TP.Step)
    | SendReserves
    | DeliverReserve(p: Participant)
    | ReceiveReply(p: Participant)
    | Decide
    | Timeout
    | SendRejects
    | DeliverCommit(p: Participant)
    | DeliverReject(p: Participant)
    | Sweep(p: Participant)

  function Perform(w: World, service: string, step: TP.Step): World
    requires service in w.services
  {
    w.(services := w.services[service := TP.Apply(w.services[service], step)])
  }

  predicate Has(w: World, p: Participant, statuses: set<TP.Status>) {
    p.service in w.services && TP.HasStatus(w.services[p.service].table, p.uuid, statuses)
  }

  /** The reply of `__reserve__`: ok exactly when `reserve` raised nothing. */
  predicate ReserveSucceeds(s: TP.State, uuid: Uuid) {
    TP.HasStatus(s.table, uuid, {TP.Pending}) && TP.Committable(s, uuid)
  }

  /** `__commit__`: a transaction that is still pending is reserved first. */
  function CommitHandler(w: World, p: Participant): World
    requires p.service in w.services
  {
    var w' := if Has(w, p, {TP.Pending}) then Perform(w, p.service, TP.Reserve(p.uuid)) else w;
    Perform(w', p.service, TP.BeginCommit(p.uuid)).(delivered := w.delivered + {p})
  }

  function Apply(participants: set<Participant>, w: World, event: Event): World
    requires Enabled(w, event)
  {
    match event
    case Local(service, step) => Perform(w, service, step)
    case SendReserves => w.(phase := Waiting, toReserve := participants)
    case DeliverReserve(p) =>
      Perform(w, p.service, TP.Reserve(p.uuid)).(
        toReserve := w.toReserve - {p},
        replies := w.replies[p := ReserveSucceeds(w.services[p.service], p.uuid)])
    case ReceiveReply(p) =>
      w.(received := w.received + 1, allOk := w.allOk && w.replies[p], replies := w.replies - {p}, heard := w.heard + {p})
    case Decide =>
      if w.received != |participants| then w
      else if w.allOk then w.(phase := Committing, commits := participants)
      else w.(phase := Failed, rejects := participants)
    case Timeout => w.(phase := Failed)
    case SendRejects => w.(rejects := participants)
    case DeliverCommit(p) => CommitHandler(w, p)
    case DeliverReject(p) => Perform(w, p.service, TP.Reject(p.uuid))
    case Sweep(p) => if Reserved(w, p) then Perform(w, p.service, TP.Reject(p.uuid)) else w
  }

  /** A handler runs once it holds the transaction lock; the coordinator acts in its own order. */
  predicate Enabled(w: World, event: Event) {
    match event
    case Local(service, step) => service in w.services
    case SendReserves => w.phase == Start
    case DeliverReserve(p) => p in w.toReserve && p.service in w.services && w.services[p.service].running.None?
    case ReceiveReply(p) => w.phase == Waiting && p in w.replies
    case Decide => w.phase == Waiting
    case Timeout => w.phase == Waiting
    case SendRejects => w.phase == Failed
    case DeliverCommit(p) => p in w.commits && p.service in w.services && w.services[p.service].running.None?
    case DeliverReject(p) => p in w.rejects && p.service in w.services && w.services[p.service].running.None?
    case Sweep(p) => p.service in w.services && w.services[p.service].running.None?
  }

  /** The step decides about this participant's transaction; only the three handlers and the sweep may do that. */
  predicate DecidesAbout(step: TP.Step, uuid: Uuid) {
    (step.Reserve? || step.BeginCommit? || step.Reject?) && step.txn == uuid
  }

  /** The decision has not fallen, and no reply, counted or in flight, excludes a commit. */
  predicate Open(w: World) {
    w.phase in {Start, Waiting} && w.allOk && forall p :: p in w.replies ==> w.replies[p]
  }

  /** The commit has been decided, or may still be, and p has answered that it is reserved. */
  predicate Promised(w: World, p: Participant) {
    w.phase == Committing || (Open(w) && (p in w.replies || p in w.heard))
  }

  /** A blocked-reservation sweep that takes back no promise. */
  predicate HarmlessSweep(participants: set<Participant>, w: World, p: Participant) {
    p in participants && Reserved(w, p) ==> !Promised(w, p)
  }

  /** Service steps respect the protocol, and no sweep takes back a promise. */
  ghost predicate Permitted(bases: string -> TP.Base, participants: set<Participant>, w: World, event: Event) {
    Enabled(w, event) &&
    match event
    case Local(service, step) =>
      TP.Permitted(bases(service), w.services[service], step) &&
      forall p :: p in participants && p.service == service ==> !DecidesAbout(step, p.uuid)
    case DeliverReserve(p) => TP.Permitted(bases(p.service), w.services[p.service], TP.Reserve(p.uuid))
    case Sweep(p) => HarmlessSweep(participants, w, p)
    case _ => true
  }

  ghost predicate Initial(participants: set<Participant>, w: World) {
    w.phase == Start && w.toReserve == {} && w.replies == map[] && w.received == 0 && w.allOk &&
    w.commits == {} && w.rejects == {} && w.heard == {} && w.delivered == {} &&
    forall p :: p in participants ==> !Entered(w, p)
  }

  ghost predicate Run(bases: string -> TP.Base, participants: set<Participant>, worlds: seq<World>, events: seq<Event>) {
    |worlds| == |events| + 1 && Initial(participants, worlds[0]) &&
    (forall s :: s in worlds[0].services ==> TP.RootedBase(bases(s)) && TP.Inv(bases(s), worlds[0].services[s])) &&
    (forall k :: 0 <= k < |events| ==>
       Permitted(bases, participants, worlds[k], events[k]) && worlds[k + 1] == Apply(participants, worlds[k], events[k]))
  }

  // ---------------------------------------------------------------- invariant

  /** Who has been asked, who has answered and whose answer was counted: a partition while the coordinator waits. */
  ghost predicate Counting(participants: set<Participant>, w: World) {
    (forall p :: p in w.toReserve ==> p in participants && p !in w.replies && p !in w.heard) &&
    (forall p :: p in w.replies ==> p in participants && p !in w.heard) &&
    w.heard <= participants && w.received == |w.heard| &&
    (w.phase == Start ==> w.toReserve == {} && w.replies == map[] && w.heard == {})
  }

  predicate Reserved(w: World, p: Participant) { Has(w, p, {TP.Reserved}) }

  /** The participant's commit has begun, or is done. */
  predicate Entered(w: World, p: Participant) { Has(w, p, {TP.Committing, TP.Committed}) }

  /** As long as a commit may be decided, every answer, counted or in flight, stands for a reservation that still stands. */
  ghost predicate Promises(participants: set<Participant>, w: World) {
    Open(w) ==> forall p :: p in w.replies || p in w.heard ==> Reserved(w, p)
  }

  ghost predicate Decided(participants: set<Participant>, w: World) {
    w.delivered <= w.commits <= participants && w.rejects <= participants &&
    (w.phase != Committing ==> w.commits == {}) &&
    (w.phase != Committing ==> forall p :: p in participants ==> !Entered(w, p)) &&
    (w.phase != Failed ==> w.rejects == {}) &&
    (w.phase == Committing ==> forall p :: p in participants ==> Reserved(w, p) || Entered(w, p)) &&
    (forall p :: p in w.delivered ==> Entered(w, p))
  }

  ghost predicate Inv(participants: set<Participant>, w: World) {
    Counting(participants, w) && Promises(participants, w) && Decided(participants, w)
  }

  /** A step that does not decide about a transaction leaves its status, but for finishing its commit. */
  lemma {:induction false} OtherStepsKeepStatus(s: TP.State, step: TP.Step, uuid: Uuid)
    requires !DecidesAbout(step, uuid) && uuid in s.table && s.table[uuid].status != TP.Pending
    ensures uuid in TP.Apply(s, step).table
    ensures TP.Apply(s, step).table[uuid].status == s.table[uuid].status ||
            (s.table[uuid].status == TP.Committing && TP.Apply(s, step).table[uuid].status == TP.Committed)
  {
  }

  lemma {:induction false} OtherStepsCommitNothing(s: TP.State, step: TP.Step, uuid: Uuid)
    requires !(step.BeginCommit? && step.txn == uuid) && !TP.HasStatus(s.table, uuid, {TP.Committing, TP.Committed})
    ensures !TP.HasStatus(TP.Apply(s, step).table, uuid, {TP.Committing, TP.Committed})
  {
  }

  lemma {:induction false} LocalFrame(w: World, service: string, step: TP.Step, p: Participant)
    requires service in w.services && (p.service == service ==> !DecidesAbout(step, p.uuid))
    ensures Reserved(w, p) ==> Reserved(Perform(w, service, step), p)
    ensures Entered(w, p) <==> Entered(Perform(w, service, step), p)
  {
    hide TP.Apply;
    var s := w.services[service];
    if p.service == service {
      if p.uuid in s.table && s.table[p.uuid].status != TP.Pending { OtherStepsKeepStatus(s, step, p.uuid); }
      if !Entered(w, p) { OtherStepsCommitNothing(s, step, p.uuid); }
    }
  }

  lemma {:induction false} LocalKeeps(bases: string -> TP.Base, participants: set<Participant>, w: World, service: string, step: TP.Step)
    requires Inv(participants, w) && Permitted(bases, participants, w, Local(service, step))
    ensures Inv(participants, Perform(w, service, step))
  {
    hide TP.Apply, TP.Permitted, Reserved, Entered;
    forall p | p in participants
      ensures Reserved(w, p) ==> Reserved(Perform(w, service, step), p)
      ensures Entered(w, p) <==> Entered(Perform(w, service, step), p)
    {
      LocalFrame(w, service, step, p);
    }
  }

  /** A handler that decides about p leaves every other participant as it was. */
  lemma {:induction false} HandlerFrame(w: World, p: Participant, step: TP.Step, q: Participant)
    requires p.service in w.services && DecidesAbout(step, p.uuid) && q != p
    ensures Reserved(Perform(w, p.service, step), q) <==> Reserved(w, q)
    ensures Entered(Perform(w, p.service, step), q) <==> Entered(w, q)
  {
  }

  /** What the three handlers do to their own participant. */
  lemma {:induction false} HandlerEffect(w: World, p: Participant)
    requires p.service in w.services && w.services[p.service].running.None?
    ensures ReserveSucceeds(w.services[p.service], p.uuid) ==> Reserved(Perform(w, p.service, TP.Reserve(p.uuid)), p)
    ensures Entered(Perform(w, p.service, TP.Reserve(p.uuid)), p) <==> Entered(w, p)
    ensures Reserved(w, p) ==> Reserved(Perform(w, p.service, TP.Reserve(p.uuid)), p)
    ensures Reserved(w, p) || Entered(w, p) ==> Entered(Perform(w, p.service, TP.BeginCommit(p.uuid)), p)
    ensures Entered(Perform(w, p.service, TP.Reject(p.uuid)), p) <==> Entered(w, p)
  {
    hide TP.Committable;
  }

  /** A commit that may still be decided after an answer might have been before, and the answer is positive. */
  lemma {:induction false} OpenBefore(participants: set<Participant>, w: World, event: Event)
    requires Enabled(w, event) && (event.DeliverReserve? || event.ReceiveReply?) && Open(Apply(participants, w, event))
    requires event.DeliverReserve? ==> event.p !in w.replies
    ensures Open(w)
    ensures event.ReceiveReply? ==> w.replies[event.p]
    ensures event.DeliverReserve? ==> ReserveSucceeds(w.services[event.p.service], event.p.uuid)
  {
    hide TP.Apply, ReserveSucceeds;
    var w' := Apply(participants, w, event);
    forall q | q in w.replies ensures w.replies[q] {
      if q != event.p { assert q in w'.replies && w'.replies[q] == w.replies[q]; }
    }
    if event.DeliverReserve? { assert event.p in w'.replies; }
  }

  lemma {:induction false} DeliverReserveKeeps(participants: set<Participant>, w: World, p: Participant)
    requires Inv(participants, w) && Enabled(w, DeliverReserve(p))
    ensures Inv(participants, Apply(participants, w, DeliverReserve(p)))
  {
    hide TP.Apply, ReserveSucceeds, Has, Reserved, Entered;
    var w' := Perform(w, p.service, TP.Reserve(p.uuid));
    if Open(Apply(participants, w, DeliverReserve(p))) { OpenBefore(participants, w, DeliverReserve(p)); }
    SameStatuses(w', Apply(participants, w, DeliverReserve(p)));
    HandlerEffect(w, p);
    forall q | q != p ensures (Reserved(w', q) <==> Reserved(w, q)) && (Entered(w', q) <==> Entered(w, q)) {
      HandlerFrame(w, p, TP.Reserve(p.uuid), q);
    }
  }

  lemma {:induction false} SameStatuses(w: World, w': World)
    requires w.services == w'.services
    ensures forall p :: (Reserved(w', p) <==> Reserved(w, p)) && (Entered(w', p) <==> Entered(w, p))
  {
  }

  lemma {:induction false} DeliverCommitKeeps(participants: set<Participant>, w: World, p: Participant)
    requires Inv(participants, w) && Enabled(w, DeliverCommit(p))
    ensures Inv(participants, Apply(participants, w, DeliverCommit(p)))
  {
    assert Reserved(w, p) || Entered(w, p);
    assert !Has(w, p, {TP.Pending});
    hide TP.Apply, Has, Reserved, Entered;
    var w' := Perform(w, p.service, TP.BeginCommit(p.uuid));
    SameStatuses(w', Apply(participants, w, DeliverCommit(p)));
    HandlerEffect(w, p);
    forall q | q != p ensures (Reserved(w', q) <==> Reserved(w, q)) && (Entered(w', q) <==> Entered(w, q)) {
      HandlerFrame(w, p, TP.BeginCommit(p.uuid), q);
    }
  }

  lemma {:induction false} RejectionKeeps(participants: set<Participant>, w: World, p: Participant)
    requires Inv(participants, w) && w.phase == Failed && p.service in w.services && w.services[p.service].running.None?
    ensures Inv(participants, Perform(w, p.service, TP.Reject(p.uuid)))
  {
  }

  /** The counting argument: as many replies as participants, all of distinct senders, means everybody answered. */
  lemma {:induction false} EverybodyAnswered(all: set<Participant>, heard: set<Participant>)
    requires heard <= all && |heard| == |all|
    ensures heard == all
  {
    assert |all - heard| == 0;
  }

  lemma {:induction false} DecideKeeps(participants: set<Participant>, w: World)
    requires Inv(participants, w) && w.phase == Waiting
    ensures Inv(participants, Apply(participants, w, Decide))
  {
    hide Has, Reserved, Entered, TP.Apply;
    SameStatuses(w, Apply(participants, w, Decide));
    if w.received == |participants| {
      EverybodyAnswered(participants, w.heard);
    }
  }

  lemma {:induction false} ReplyKeeps(participants: set<Participant>, w: World, p: Participant)
    requires Inv(participants, w) && Enabled(w, ReceiveReply(p))
    ensures Inv(participants, Apply(participants, w, ReceiveReply(p)))
  {
    hide Has, Reserved, Entered, TP.Apply;
    if Open(Apply(participants, w, ReceiveReply(p))) { OpenBefore(participants, w, ReceiveReply(p)); }
    SameStatuses(w, Apply(participants, w, ReceiveReply(p)));
  }

  lemma {:induction false} SendingKeeps(participants: set<Participant>, w: World, event: Event)
    requires Inv(participants, w) && Enabled(w, event) && event in {SendReserves, Timeout, SendRejects}
    ensures Inv(participants, Apply(participants, w, event))
  {
  }

  lemma {:induction false} EventKeeps(bases: string -> TP.Base, participants: set<Participant>, w: World, event: Event)
    requires Inv(participants, w) && Permitted(bases, participants, w, event)
    ensures Inv(participants, Apply(participants, w, event))
  {
    hide Inv, TP.Apply, TP.Permitted, Has;
    match event
    case Local(service, step) => LocalKeeps(bases, participants, w, service, step);
    case DeliverReserve(p) => DeliverReserveKeeps(participants, w, p);
    case ReceiveReply(p) => ReplyKeeps(participants, w, p);
    case Decide => DecideKeeps(participants, w);
    case DeliverCommit(p) => DeliverCommitKeeps(participants, w, p);
    case DeliverReject(p) => DeliverRejectKeeps(participants, w, p);
    case Sweep(p) => SweepIsExact(participants, w, p);
    case SendReserves => SendingKeeps(participants, w, event);
    case Timeout => SendingKeeps(participants, w, event);
    case SendRejects => SendingKeeps(participants, w, event);
  }

  /** Exactly the sweeps that take back no promise keep the invariant. */
  lemma {:induction false} SweepIsExact(participants: set<Participant>, w: World, p: Participant)
    requires Inv(participants, w) && Enabled(w, Sweep(p))
    ensures Inv(participants, Apply(participants, w, Sweep(p))) <==> HarmlessSweep(participants, w, p)
  {
    hide TP.Apply, Has;
    if Reserved(w, p) {
      var w' := Perform(w, p.service, TP.Reject(p.uuid));
      SweepEffect(w, p);
      hide Reserved, Entered;
      forall q | q != p ensures (Reserved(w', q) <==> Reserved(w, q)) && (Entered(w', q) <==> Entered(w, q)) {
        HandlerFrame(w, p, TP.Reject(p.uuid), q);
      }
    }
  }

  lemma {:induction false} SweepEffect(w: World, p: Participant)
    requires Reserved(w, p) && w.services[p.service].running.None?
    ensures var w' := Perform(w, p.service, TP.Reject(p.uuid));
            Has(w', p, {TP.Rejected}) && !Reserved(w', p) && !Entered(w', p) && !Entered(w, p) && w'.services[p.service].running.None?
  {
  }

  lemma {:induction false} DeliverRejectKeeps(participants: set<Participant>, w: World, p: Participant)
    requires Inv(participants, w) && Enabled(w, DeliverReject(p))
    ensures Inv(participants, Apply(participants, w, DeliverReject(p)))
  {
    hide TP.Apply, Has, Reserved, Entered;
    RejectionKeeps(participants, w, p);
  }

  lemma {:induction false} RunKeeps(bases: string -> TP.Base, participants: set<Participant>, worlds: seq<World>, events: seq<Event>,
                                    k: nat)
    requires Run(bases, participants, worlds, events) && k < |worlds|
    ensures Inv(participants, worlds[k])
  {
    if k > 0 {
      RunKeeps(bases, participants, worlds, events, k - 1);
      EventKeeps(bases, participants, worlds[k - 1], events[k - 1]);
    }
  }

  // ---------------------------------------------------------------- agreement

  /** Agreement: in no run is one participant committed, or committing, while another one is rejected. */
  lemma {:induction false} Agreement(bases: string -> TP.Base, participants: set<Participant>, worlds: seq<World>, events: seq<Event>,
                                     k: nat, p: Participant, q: Participant)
    requires Run(bases, participants, worlds, events) && k < |worlds| && p in participants && q in participants
    ensures !(Has(worlds[k], p, {TP.Committing, TP.Committed}) && Has(worlds[k], q, {TP.Rejected}))
  {
    hide Run;
    RunKeeps(bases, participants, worlds, events, k);
  }

  /** Every step a service takes is a protocol step, so each service keeps the protocol's own invariant. */
  lemma {:induction false} ServicesKeep(bases: string -> TP.Base, participants: set<Participant>, w: World, event: Event, s: string)
    requires Inv(participants, w) && Permitted(bases, participants, w, event)
    requires s in w.services && TP.RootedBase(bases(s)) && TP.Inv(bases(s), w.services[s])
    ensures s in Apply(participants, w, event).services && TP.Inv(bases(s), Apply(participants, w, event).services[s])
    ensures Apply(participants, w, event).services.Keys == w.services.Keys
  {
    if event.DeliverCommit? { DeliveredIsNotPending(bases, participants, w, event.p); }
    hide TP.Inv, TP.Apply, Inv, Permitted, Apply, StepIn;
    ServiceMoves(participants, w, event, s);
    if StepIn(w, event, s).Some? {
      var step := StepIn(w, event, s).value;
      HandlersArePermitted(bases, participants, w, event, s);
      TransactionSafety.StepKeeps(bases(s), w.services[s], step, TP.Apply(w.services[s], step));
    }
  }

  /** The step that a service takes. */
  function StepIn(w: World, event: Event, s: string): Option<TP.Step> {
    match event
    case Local(service, step) => if service == s then Some(step) else None
    case DeliverReserve(p) => if p.service == s then Some(TP.Reserve(p.uuid)) else None
    case DeliverCommit(p) => if p.service == s then Some(TP.BeginCommit(p.uuid)) else None
    case DeliverReject(p) => if p.service == s then Some(TP.Reject(p.uuid)) else None
    case Sweep(p) => if p.service == s && Reserved(w, p) then Some(TP.Reject(p.uuid)) else None
    case _ => None
  }

  lemma {:induction false} ServiceMoves(participants: set<Participant>, w: World, event: Event, s: string)
    requires Enabled(w, event) && s in w.services && (event.DeliverCommit? ==> !Has(w, event.p, {TP.Pending}))
    ensures var w' := Apply(participants, w, event);
            w'.services.Keys == w.services.Keys &&
            w'.services[s] == if StepIn(w, event, s).Some? then TP.Apply(w.services[s], StepIn(w, event, s).value) else w.services[s]
  {
    hide TP.Apply, Has;
  }

  lemma {:induction false} DeliveredIsNotPending(bases: string -> TP.Base, participants: set<Participant>, w: World, p: Participant)
    requires Inv(participants, w) && Permitted(bases, participants, w, DeliverCommit(p))
    ensures !Has(w, p, {TP.Pending})
  {
  }

  lemma {:induction false} HandlersArePermitted(bases: string -> TP.Base, participants: set<Participant>, w: World, event: Event, s: string)
    requires Permitted(bases, participants, w, event) && s in w.services && StepIn(w, event, s).Some?
    ensures var step := StepIn(w, event, s).value; TP.Next(bases(s), w.services[s], step, TP.Apply(w.services[s], step))
  {
    hide TP.Apply, Has, HarmlessSweep, DecidesAbout;
  }

  lemma {:induction false} RunKeepsServices(bases: string -> TP.Base, participants: set<Participant>, worlds: seq<World>,
                                            events: seq<Event>, k: nat, s: string)
    requires Run(bases, participants, worlds, events) && k < |worlds| && s in worlds[0].services
    ensures s in worlds[k].services && TP.Inv(bases(s), worlds[k].services[s]) && worlds[k].services.Keys == worlds[0].services.Keys
  {
    hide TP.Inv, Apply;
    if k > 0 {
      RunKeepsServices(bases, participants, worlds, events, k - 1, s);
      RunKeeps(bases, participants, worlds, events, k - 1);
      ServicesKeep(bases, participants, worlds[k - 1], events[k - 1], s);
    }
  }

  /**
    Once every commit message is delivered, every participant whose service is not in the middle of a
    commit is COMMITTED, and one that is being committed runs to COMMITTED without a refusal.
   */
  lemma {:induction false} DeliveredCommits(bases: string -> TP.Base, participants: set<Participant>, worlds: seq<World>,
                                            events: seq<Event>, k: nat, p: Participant)
    requires Run(bases, participants, worlds, events) && k < |worlds| && worlds[k].delivered == participants && p in participants
    ensures p.service in worlds[k].services
    ensures Has(worlds[k], p, {TP.Committed}) ||
            (worlds[k].services[p.service].running.Some? && worlds[k].services[p.service].running.value.txn == p.uuid &&
             TP.HasStatus(TransactionTheorems.FinishCommit(worlds[k].services[p.service]).table, p.uuid, {TP.Committed}))
    ensures worlds[k].services[p.service].running.None? ==> Has(worlds[k], p, {TP.Committed})
  {
    RunKeeps(bases, participants, worlds, events, k);
    assert Has(worlds[k], p, {TP.Committing, TP.Committed});
    KeysStay(bases, participants, worlds, events, k);
    RunKeepsServices(bases, participants, worlds, events, k, p.service);
    var s := worlds[k].services[p.service];
    if s.table[p.uuid].status == TP.Committing {
      assert TP.RunningExact(s);
      TransactionTheorems.CommitFinishes(bases(p.service), s);
    }
  }

  lemma {:induction false} KeysStay(bases: string -> TP.Base, participants: set<Participant>, worlds: seq<World>, events: seq<Event>,
                                    k: nat)
    requires Run(bases, participants, worlds, events) && k < |worlds|
    ensures worlds[k].services.Keys == worlds[0].services.Keys
  {
    hide TP.Apply, TP.Inv, TP.Permitted, Initial;
    if k > 0 { KeysStay(bases, participants, worlds, events, k - 1); }
  }

  /**
    The sweep is what the agreement has to exclude: in any run that has counted a positive reply of
    every participant, sweeping one of them before the decision lets any other one commit.
   */
  lemma {:induction false} SweepBreaksAgreement(bases: string -> TP.Base, participants: set<Participant>, worlds: seq<World>,
                                                events: seq<Event>,
                                                k: nat, p: Participant, q: Participant)
    requires Run(bases, participants, worlds, events) && k < |worlds| && p in participants && q in participants && p != q
    requires worlds[k].phase == Waiting && worlds[k].received == |participants| && worlds[k].allOk
    requires p.service in worlds[k].services && worlds[k].services[p.service].running.None?
    requires q.service in worlds[k].services && worlds[k].services[q.service].running.None?
    ensures !HarmlessSweep(participants, worlds[k], p) && Enabled(worlds[k], Sweep(p))
    ensures
      var swept := Apply(participants, worlds[k], Sweep(p));
      Enabled(swept, Decide) &&
      var decided := Apply(participants, swept, Decide);
      Enabled(decided, DeliverCommit(q)) &&
      var done := Apply(participants, decided, DeliverCommit(q));
      Has(done, p, {TP.Rejected}) && Entered(done, q)
  {
    hide TP.Apply, Run, Decided;
    var w := worlds[k];
    RunKeeps(bases, participants, worlds, events, k);
    EverybodyAnswered(participants, w.heard);
    assert Reserved(w, p) && Reserved(w, q);
    SweepEffect(w, p);
    HandlerFrame(w, p, TP.Reject(p.uuid), q);
    var swept := Perform(w, p.service, TP.Reject(p.uuid));
    var decided := Apply(participants, swept, Decide);
    assert Reserved(decided, q) && Has(decided, p, {TP.Rejected}) && decided.services == swept.services;
    HandlerEffect(decided, q);
    RejectedStays(decided, q, p);
  }

  lemma {:induction false} RejectedStays(w: World, q: Participant, p: Participant)
    requires Has(w, p, {TP.Rejected}) && Reserved(w, q)
    ensures Has(Perform(w, q.service, TP.BeginCommit(q.uuid)), p, {TP.Rejected})
  {
  }

  // ---------------------------------------------------------------- what a sweep leads to

  /** Whatever may happen from w on. */
  ghost predicate Continues(bases: string -> TP.Base, participants: set<Participant>, w: World, worlds: seq<World>, events: seq<Event>) {
    |worlds| == |events| + 1 && worlds[0] == w &&
    forall k :: 0 <= k < |events| ==>
      Permitted(bases, participants, worlds[k], events[k]) && worlds[k + 1] == Apply(participants, worlds[k], events[k])
  }

  predicate Agrees(participants: set<Participant>, w: World) {
    forall p, q :: p in participants && q in participants ==> !(Entered(w, p) && Has(w, q, {TP.Rejected}))
  }

  lemma {:induction false} InvAgrees(participants: set<Participant>, w: World)
    requires Inv(participants, w)
    ensures Agrees(participants, w)
  {
  }

  lemma {:induction false} ContinuationKeeps(bases: string -> TP.Base, participants: set<Participant>, w: World, worlds: seq<World>,
                                             events: seq<Event>, k: nat)
    requires Inv(participants, w) && Continues(bases, participants, w, worlds, events) && k < |worlds|
    ensures Inv(participants, worlds[k])
  {
    hide Inv;
    if k > 0 {
      ContinuationKeeps(bases, participants, w, worlds, events, k - 1);
      EventKeeps(bases, participants, worlds[k - 1], events[k - 1]);
    }
  }

  /** While the coordinator waits everybody is being asked or has answered, and a commit is decided for all. */
  ghost predicate Asked(participants: set<Participant>, w: World) {
    (w.phase == Waiting ==> forall p :: p in participants ==> p in w.toReserve || p in w.replies || p in w.heard) &&
    (w.phase == Committing ==> w.commits == participants)
  }

  lemma {:induction false} AskedKeeps(participants: set<Participant>, w: World, event: Event)
    requires Asked(participants, w) && Enabled(w, event)
    ensures Asked(participants, Apply(participants, w, event))
  {
    hide TP.Apply, Has;
  }

  lemma {:induction false} RunAsks(bases: string -> TP.Base, participants: set<Participant>, worlds: seq<World>, events: seq<Event>, k: nat)
    requires Run(bases, participants, worlds, events) && k < |worlds|
    ensures Asked(participants, worlds[k])
  {
    hide Apply;
    if k > 0 {
      hide Asked;
      RunAsks(bases, participants, worlds, events, k - 1);
      assert Permitted(bases, participants, worlds[k - 1], events[k - 1]);
      AskedKeeps(participants, worlds[k - 1], events[k - 1]);
    }
  }

  /** p is rejected while q is reserved, in a service that keeps the invariant of its protocol. */
  ghost predicate Torn(bases: string -> TP.Base, w: World, p: Participant, q: Participant) {
    Has(w, p, {TP.Rejected}) && Reserved(w, q) && TP.RootedBase(bases(q.service)) && TP.Inv(bases(q.service), w.services[q.service])
  }

  predicate SameCoordinator(w: World, w': World) {
    w' == w.(services := w'.services)
  }

  lemma {:induction false} More(bases: string -> TP.Base, participants: set<Participant>, w: World, worlds: seq<World>, events: seq<Event>,
                                event: Event) returns (worlds': seq<World>, events': seq<Event>)
    requires Continues(bases, participants, w, worlds, events) && Permitted(bases, participants, worlds[|events|], event)
    ensures Continues(bases, participants, w, worlds', events')
    ensures worlds'[|events'|] == Apply(participants, worlds[|events|], event)
  {
    hide Enabled, Apply, TP.Permitted, HarmlessSweep;
    worlds', events' := worlds + [Apply(participants, worlds[|events|], event)], events + [event];
    forall k | 0 <= k < |events'|
      ensures Permitted(bases, participants, worlds'[k], events'[k]) && worlds'[k + 1] == Apply(participants, worlds'[k], events'[k])
    {
      if k < |events| { assert Permitted(bases, participants, worlds[k], events[k]); }
    }
  }

  /** A step of the commit that the service of q is running. */
  lemma {:induction false} CommitStepStays(bases: string -> TP.Base, w: World, p: Participant, q: Participant, step: TP.Step)
    requires Torn(bases, w, p, q) && (step.CopyNext? || step.EndCommit?)
    ensures Torn(bases, Perform(w, q.service, step), p, q)
  {
    hide TP.Inv, TP.Apply;
    var s := w.services[q.service];
    TransactionSafety.StepKeeps(bases(q.service), s, step, TP.Apply(s, step));
    LocalFrame(w, q.service, step, q);
    if p.service == q.service { OtherStepsKeepStatus(s, step, p.uuid); }
  }

  /** How many steps the commit has to go. */
  function StepsLeft(s: TP.State): nat {
    if s.running.None? then 0
    else
      var n := |TP.Positions(s.log, s.running.value.txn)|;
      if s.running.value.copied <= n then n - s.running.value.copied + 1 else 0
  }

  lemma {:induction false} CommitStepAdvances(base: TP.Base, s: TP.State) returns (step: TP.Step)
    requires TP.RootedBase(base) && TP.Inv(base, s) && s.running.Some?
    ensures (step.CopyNext? || step.EndCommit?) && StepsLeft(TP.Apply(s, step)) < StepsLeft(s)
  {
    hide TP.Contiguous, TP.CountersExact, TP.EventsAnchored, TP.AllReady, TP.Exclusive, TP.SourcesExact, TP.Apply, TP.Positions;
    if s.running.value.copied < |TP.Positions(s.log, s.running.value.txn)| {
      step := TP.CopyNext;
      TransactionTheorems.CopyAdvances(base, s);
    } else {
      step := TP.EndCommit;
      TransactionTheorems.CommitEnds(base, s);
    }
  }

  /** The service of q brings the commit it is running to its end. */
  lemma {:induction false} ServiceFinishes(bases: string -> TP.Base, participants: set<Participant>, w: World, worlds: seq<World>,
                                           events: seq<Event>, p: Participant, q: Participant)
    returns (worlds': seq<World>, events': seq<Event>)
    requires Continues(bases, participants, w, worlds, events) && Torn(bases, worlds[|events|], p, q)
    ensures Continues(bases, participants, w, worlds', events')
    ensures var end := worlds'[|events'|];
            Torn(bases, end, p, q) && SameCoordinator(worlds[|events|], end) && end.services[q.service].running.None?
    decreases StepsLeft(worlds[|events|].services[q.service]), worlds[|events|].services[q.service].running.Some?
  {
    hide TP.Inv, TP.Apply, StepsLeft;
    worlds', events' := worlds, events;
    var now := worlds[|events|];
    var s := now.services[q.service];
    if s.running.Some? {
      var step := CommitStepAdvances(bases(q.service), s);
      CommitStepStays(bases, now, p, q, step);
      worlds', events' := More(bases, participants, w, worlds, events, Local(q.service, step));
      worlds', events' := ServiceFinishes(bases, participants, w, worlds', events', p, q);
    }
  }

  /** Everybody has been asked, has answered positively, and the coordinator may still decide to commit. */
  ghost predicate Promising(participants: set<Participant>, w: World) {
    Counting(participants, w) && Asked(participants, w) && Open(w) && w.phase == Waiting && w.toReserve == {}
  }

  lemma {:induction false} ReplyKeepsPromising(participants: set<Participant>, w: World, x: Participant)
    requires Promising(participants, w) && x in w.replies
    ensures Enabled(w, ReceiveReply(x))
    ensures var w' := Apply(participants, w, ReceiveReply(x));
            Promising(participants, w') && w'.replies == w.replies - {x} && w'.services == w.services
  {
    AskedKeeps(participants, w, ReceiveReply(x));
  }

  /** The coordinator receives all replies. */
  lemma {:induction false} RepliesArrive(bases: string -> TP.Base, participants: set<Participant>, w: World, worlds: seq<World>,
                                         events: seq<Event>) returns (worlds': seq<World>, events': seq<Event>)
    requires Continues(bases, participants, w, worlds, events) && Promising(participants, worlds[|events|])
    ensures Continues(bases, participants, w, worlds', events')
    ensures var end := worlds'[|events'|];
            Promising(participants, end) && end.replies == map[] && end.services == worlds[|events|].services
    decreases |worlds[|events|].replies|
  {
    hide Promising, Apply;
    worlds', events' := worlds, events;
    var now := worlds[|events|];
    if now.replies != map[] {
      var x :| x in now.replies;
      ReplyKeepsPromising(participants, now, x);
      worlds', events' := More(bases, participants, w, worlds, events, ReceiveReply(x));
      assert worlds'[|events'|].replies.Keys == now.replies.Keys - {x};
      assert |now.replies.Keys - {x}| < |now.replies.Keys|;
      worlds', events' := RepliesArrive(bases, participants, w, worlds', events');
    }
  }

  /** Then it decides to commit. */
  lemma {:induction false} PromisingDecides(participants: set<Participant>, w: World)
    requires Promising(participants, w) && w.replies == map[]
    ensures Enabled(w, Decide)
    ensures var w' := Apply(participants, w, Decide);
            w'.phase == Committing && w'.commits == participants && w'.services == w.services
  {
    assert w.heard == participants;
  }

  /** And a commit message reaches q. */
  lemma {:induction false} CommitReaches(bases: string -> TP.Base, participants: set<Participant>, w: World, p: Participant, q: Participant)
    requires Torn(bases, w, p, q) && w.services[q.service].running.None? && q in w.commits
    ensures Enabled(w, DeliverCommit(q))
    ensures var w' := Apply(participants, w, DeliverCommit(q)); Entered(w', q) && Has(w', p, {TP.Rejected})
  {
    hide TP.Inv, TP.Apply;
    HandlerEffect(w, q);
    RejectedStays(w, q, p);
  }

  /** A promise that was taken back: there is a continuation that tears p and q apart. */
  lemma {:induction false} TornApart(bases: string -> TP.Base, participants: set<Participant>, w: World, p: Participant, q: Participant)
    returns (worlds: seq<World>, events: seq<Event>)
    requires Torn(bases, w, p, q) && p in participants && q in participants
    requires Promising(participants, w) || (w.phase == Committing && w.commits == participants)
    ensures Continues(bases, participants, w, worlds, events) && !Agrees(participants, worlds[|events|])
  {
    hide TP.Inv, Apply, TP.Apply, Promising;
    worlds, events := [w], [];
    if Promising(participants, w) {
      worlds, events := RepliesArrive(bases, participants, w, worlds, events);
      PromisingDecides(participants, worlds[|events|]);
      worlds, events := More(bases, participants, w, worlds, events, Decide);
    }
    worlds, events := ServiceFinishes(bases, participants, w, worlds, events, p, q);
    CommitReaches(bases, participants, worlds[|events|], p, q);
    worlds, events := More(bases, participants, w, worlds, events, DeliverCommit(q));
  }

  /** After a sweep of p the others are as they were, and p is rejected. */
  lemma {:induction false} SweepTears(bases: string -> TP.Base, participants: set<Participant>, w: World, p: Participant, q: Participant)
    requires Enabled(w, Sweep(p)) && Reserved(w, p) && Reserved(w, q) && p != q
    requires TP.RootedBase(bases(q.service)) && TP.Inv(bases(q.service), w.services[q.service])
    ensures Torn(bases, Apply(participants, w, Sweep(p)), p, q)
    ensures SameCoordinator(w, Apply(participants, w, Sweep(p)))
  {
    hide TP.Inv, TP.Apply;
    SweepEffect(w, p);
    HandlerFrame(w, p, TP.Reject(p.uuid), q);
    if p.service == q.service {
      TransactionSafety.StepKeeps(bases(q.service), w.services[q.service], TP.Reject(p.uuid),
                                  TP.Apply(w.services[q.service], TP.Reject(p.uuid)));
    }
  }

  /** Whatever happens from w on, nobody commits while another one is rejected. */
  ghost predicate AgreesForEver(bases: string -> TP.Base, participants: set<Participant>, w: World) {
    forall worlds, events :: Continues(bases, participants, w, worlds, events) ==>
      forall j :: 0 <= j < |worlds| ==> Agrees(participants, worlds[j])
  }

  /**
    What agreement needs of a sweep, exactly: after sweeping a reserved participant there is agreement for ever if
    the sweep takes back no promise and, once everybody has been asked and has answered, only then.
   */
  lemma {:induction false} SweepIsHarmlessExactly(bases: string -> TP.Base, participants: set<Participant>, worlds: seq<World>,
                                                  events: seq<Event>, k: nat, p: Participant, q: Participant)
    requires Run(bases, participants, worlds, events) && k < |worlds| && p in participants && q in participants && p != q
    requires Enabled(worlds[k], Sweep(p)) && Reserved(worlds[k], p)
    ensures var ever := AgreesForEver(bases, participants, Apply(participants, worlds[k], Sweep(p)));
            var harmless := HarmlessSweep(participants, worlds[k], p);
            (harmless ==> ever) && ((worlds[k].phase == Waiting ==> worlds[k].toReserve == {}) ==> (harmless <==> ever))
  {
    hide Apply, Continues, Agrees, Inv, Promising, Torn, TP.Inv;
    var w := worlds[k];
    var swept := Apply(participants, w, Sweep(p));
    RunKeeps(bases, participants, worlds, events, k);
    if HarmlessSweep(participants, w, p) {
      SweepIsExact(participants, w, p);
      forall next, more, j | Continues(bases, participants, swept, next, more) && 0 <= j < |next| ensures Agrees(participants, next[j]) {
        ContinuationKeeps(bases, participants, swept, next, more, j);
        InvAgrees(participants, next[j]);
      }
    } else if w.phase == Waiting ==> w.toReserve == {} {
      var next, more := HarmIsSeen(bases, participants, worlds, events, k, p, q);
    }
  }

  lemma {:induction false} HarmIsSeen(bases: string -> TP.Base, participants: set<Participant>, worlds: seq<World>, events: seq<Event>,
                                      k: nat, p: Participant, q: Participant) returns (next: seq<World>, more: seq<Event>)
    requires Run(bases, participants, worlds, events) && k < |worlds| && p in participants && q in participants && p != q
    requires Enabled(worlds[k], Sweep(p)) && Reserved(worlds[k], p) && (worlds[k].phase == Waiting ==> worlds[k].toReserve == {})
    requires !HarmlessSweep(participants, worlds[k], p)
    ensures Continues(bases, participants, Apply(participants, worlds[k], Sweep(p)), next, more)
    ensures |next| == |more| + 1 && !Agrees(participants, next[|more|])
  {
    hide Apply, Torn, TP.Inv;
    var w := worlds[k];
    var swept := Apply(participants, w, Sweep(p));
    RunKeeps(bases, participants, worlds, events, k);
    RunAsks(bases, participants, worlds, events, k);
    hide Run;
    if Entered(w, q) {
      next, more := [swept], [];
      EnteredStays(participants, w, p, q);
    } else {
      assert Reserved(w, q);
      assert TP.RootedBase(bases(q.service)) && TP.Inv(bases(q.service), w.services[q.service]) by {
        QIsSound(bases, participants, worlds, events, k, q);
      }
      SweepTears(bases, participants, w, p, q);
      next, more := TornApart(bases, participants, swept, p, q);
    }
  }

  lemma {:induction false} EnteredStays(participants: set<Participant>, w: World, p: Participant, q: Participant)
    requires Enabled(w, Sweep(p)) && Reserved(w, p) && Entered(w, q) && p != q && p in participants && q in participants
    ensures !Agrees(participants, Apply(participants, w, Sweep(p)))
  {
    hide TP.Apply;
    SweepEffect(w, p);
    HandlerFrame(w, p, TP.Reject(p.uuid), q);
  }

  lemma {:induction false} QIsSound(bases: string -> TP.Base, participants: set<Participant>, worlds: seq<World>, events: seq<Event>,
                                    k: nat, q: Participant)
    requires Run(bases, participants, worlds, events) && k < |worlds| && q.service in worlds[k].services
    ensures TP.RootedBase(bases(q.service)) && TP.Inv(bases(q.service), worlds[k].services[q.service])
  {
    hide TP.Inv, Permitted, Apply, Initial;
    KeysStay(bases, participants, worlds, events, k);
    RunKeepsServices(bases, participants, worlds, events, k, q.service);
  }
}
