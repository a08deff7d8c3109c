/** Reachable runs in which the engine does not keep what one might expect of it. */
module EngineScenarios {
  import opened OrderLifecycle
  import opened Engine
  import EngineAttempts
  import EngineOrders

  /** Reached by calls and authorizations alone, without any recovery or halt. */
  ghost predicate Reaches(w: World, v: World) {
    exists events :: Run(w, events) == v && Uninterrupted(events)
  }

  predicate Uninterrupted(events: seq<Event>) {
    forall i :: 0 <= i < |events| ==> !events[i].RecoverAll? && !events[i].GlobalHalt?
  }

  lemma {:induction false} RunThen(w: World, first: seq<Event>, rest: seq<Event>)
    ensures Run(w, first + rest) == Run(Run(w, first), rest)
    decreases |first|
  {
    hide Step;
    if first == [] {
      assert first + rest == rest;
    } else {
      assert (first + rest)[1..] == first[1..] + rest;
      RunThen(Step(w, first[0]), first[1..], rest);
    }
  }

  /** One more event. */
  lemma {:induction false} Then(w: World, v: World, e: Event)
    requires Reaches(w, v) && !e.RecoverAll? && !e.GlobalHalt?
    ensures Reaches(w, Step(v, e))
  {
    hide Step;
    var events :| Run(w, events) == v && Uninterrupted(events);
    RunThen(w, events, [e]);
    assert Uninterrupted(events + [e]);
    assert [e][1..] == [];
    assert Run(v, [e]) == Step(v, e);
  }

  lemma {:induction false} Here(w: World)
    ensures Reaches(w, w)
  {
    assert Run(w, []) == w;
  }

  // ----- one execution of ten contracts, accepted by the exchange -----

  const INTENT := Intent("market", "client", "yes", 0.5, 10.0, 0)
  const EXECUTION := ExecutionId(INTENT, Demo)
  const GRANT := Authorization(INTENT, 0, 0, 100, Issued)
  const ROW := LocalOrder(EXECUTION, 0.5, 10.0, 0.0, 0.0, Accepted, 1, Some("order"), true)
  const PENDING := ROW.(state := SubmissionPending, exchangeOrderId := None)
  const ACCEPTED := Response(201, Some("order"), None, None)

  function Call(pc: SubmitPc, owns: bool): Submit {
    Submit(Demo, INTENT, "grant", INTENT, 100, true, 0, 0, 1, pc, owns)
  }

  function Answered(outcome: Outcome): Input {
    Input(false, 1, false, true, outcome)
  }

  function Start(mutates: seq<Mutate>): World {
    World(Db(map[], map[], map[], map[]), [], [Call(CheckSubmit, false)], mutates)
  }

  function Submitting(
    journals: map<ExecutionId, Journal>, orders: map<ExecutionId, LocalOrder>, grant: AuthorizationState, sent: seq<Sent>,
    pc: SubmitPc, owns: bool, mutates: seq<Mutate>): World
  {
    World(Db(journals, orders, map[], map["grant" := GRANT.(state := grant)]), sent, [Call(pc, owns)], mutates)
  }

  function Journaled(state: JournalState, maybeSent: bool): map<ExecutionId, Journal> {
    map[EXECUTION := Journal("client", "grant", state, maybeSent)]
  }

  /** The world after the order was accepted and stored. */
  function Opened(mutates: seq<Mutate>): World {
    Submitting(Journaled(ResponsePersisted, true), map[EXECUTION := ROW], Consumed, [CreateOrder(EXECUTION, "client", "grant")],
               SubmitReturned(ROW), true, mutates)
  }

  lemma {:induction false} PendingIs(pc: SubmitPc, owns: bool)
    ensures PendingOrder(Call(pc, owns)) == PENDING
    ensures Classify(Call(pc, owns), ACCEPTED) == JournalOutcome(ResponsePersisted, true, Some(ROW), false)
  {
  }

  lemma {:induction false} OpeningChecks(mutates: seq<Mutate>)
    ensures Reaches(Start(mutates), Submitting(map[], map[], Issued, [], AcquireJournal, false, mutates))
  {
    hide PendingOrder, Reaches;
    var w := Start(mutates);
    Here(w);
    Then(w, w, Issue("grant", GRANT));
    var w1 := Submitting(map[], map[], Issued, [], CheckSubmit, false, mutates);
    assert Step(w, Issue("grant", GRANT)) == w1;
    Then(w, w1, SubmitEvent(0, Answered(ACCEPTED)));
    assert Step(w1, SubmitEvent(0, Answered(ACCEPTED))) == Submitting(map[], map[], Issued, [], AcquireJournal, false, mutates);
  }

  lemma {:induction false} OpeningJournal(start: World, mutates: seq<Mutate>)
    requires Reaches(start, Submitting(map[], map[], Issued, [], AcquireJournal, false, mutates))
    ensures Reaches(start, Submitting(Journaled(JournaledNotSent, false), map[EXECUTION := PENDING], Issued, [], ConsumeAuthorization, true, mutates))
  {
    hide PendingOrder, Reaches;
    PendingIs(SavePending, true);
    var e := SubmitEvent(0, Answered(ACCEPTED));
    var w := Submitting(map[], map[], Issued, [], AcquireJournal, false, mutates);
    var w1 := Submitting(Journaled(JournaledNotSent, false), map[], Issued, [], SavePending, true, mutates);
    Then(start, w, e);
    assert Step(w, e) == w1;
    Then(start, w1, e);
    assert Step(w1, e) == Submitting(Journaled(JournaledNotSent, false), map[EXECUTION := PENDING], Issued, [], ConsumeAuthorization, true, mutates);
  }

  lemma {:induction false} OpeningSend(start: World, mutates: seq<Mutate>)
    requires Reaches(start, Submitting(Journaled(JournaledNotSent, false), map[EXECUTION := PENDING], Issued, [], ConsumeAuthorization, true, mutates))
    ensures Reaches(start, Submitting(Journaled(SendStarted, true), map[EXECUTION := PENDING], Consumed, [], SendCreate, true, mutates))
  {
    hide PendingOrder, Reaches;
    var e := SubmitEvent(0, Answered(ACCEPTED));
    var orders := map[EXECUTION := PENDING];
    var w := Submitting(Journaled(JournaledNotSent, false), orders, Issued, [], ConsumeAuthorization, true, mutates);
    var w1 := Submitting(Journaled(JournaledNotSent, false), orders, Consumed, [], MarkStarted, true, mutates);
    Then(start, w, e);
    assert Step(w, e) == w1;
    Then(start, w1, e);
    assert Step(w1, e) == Submitting(Journaled(SendStarted, true), orders, Consumed, [], SendCreate, true, mutates);
  }

  lemma {:induction false} OpeningAnswer(start: World, mutates: seq<Mutate>)
    requires Reaches(start, Submitting(Journaled(SendStarted, true), map[EXECUTION := PENDING], Consumed, [], SendCreate, true, mutates))
    ensures Reaches(start, Opened(mutates))
  {
    hide PendingOrder, Classify, Reaches;
    var e := SubmitEvent(0, Answered(ACCEPTED));
    var orders := map[EXECUTION := PENDING];
    var sent := [CreateOrder(EXECUTION, "client", "grant")];
    PendingIs(SendCreate, true);
    var w := Submitting(Journaled(SendStarted, true), orders, Consumed, [], SendCreate, true, mutates);
    var w1 := Submitting(Journaled(SendStarted, true), orders, Consumed, sent, JournalOutcome(ResponsePersisted, true, Some(ROW), false), true, mutates);
    var w2 := Submitting(Journaled(ResponsePersisted, true), orders, Consumed, sent, SaveOutcome(ROW, false), true, mutates);
    Then(start, w, e);
    assert Step(w, e) == w1;
    Then(start, w1, e);
    assert Step(w1, e) == w2;
    Then(start, w2, e);
    assert Step(w2, e) == Opened(mutates);
  }

  lemma {:induction false} Opens(mutates: seq<Mutate>)
    ensures Reaches(Start(mutates), Opened(mutates))
  {
    hide Reaches;
    OpeningChecks(mutates);
    OpeningJournal(Start(mutates), mutates);
    OpeningSend(Start(mutates), mutates);
    OpeningAnswer(Start(mutates), mutates);
  }

  // ----- mutations of it -----

  /** The order as a caller has reconciled it. */
  const LIVE := ROW.(reconciliationRequired := false)

  function Cancelling(pc: MutatePc, key: Option<AttemptKey>): Mutate {
    Mutate(LIVE, Cancel, true, 1, None, None, None, pc, key)
  }

  function Decreasing(pc: MutatePc, key: Option<AttemptKey>): Mutate {
    Mutate(LIVE, Decrease, true, 1, None, Some(1.0), None, pc, key)
  }

  const CANCEL := AttemptKey(EXECUTION, Cancel, NoBody)
  const DECREASE := AttemptKey(EXECUTION, Decrease, ReduceTo(1.0))
  const CANCEL_PENDING := ROW.(state := CancellationPending)
  const DECREASE_PENDING := ROW.(state := DecreasePending)
  const FILLED := DECREASE_PENDING.(state := Filled, filled := 10.0)
  const UNKNOWN := CANCEL_PENDING.(state := ReconciliationUnknown)

  function Mutating(row: LocalOrder, attempts: map<AttemptKey, Attempt>, mutations: seq<Sent>, mutates: seq<Mutate>): World {
    World(
      Db(Journaled(ResponsePersisted, true), map[EXECUTION := row], attempts, map["grant" := GRANT.(state := Consumed)]),
      [CreateOrder(EXECUTION, "client", "grant")] + mutations, [Call(SubmitReturned(ROW), true)], mutates)
  }

  function Quietly(): Input {
    Answered(TimeoutBeforeSend)
  }

  /** The cancel call gets ready to send. */
  lemma {:induction false} CancelPrepares(start: World, other: Mutate)
    requires Reaches(start, Mutating(ROW, map[], [], [Cancelling(CheckMutation, None), other]))
    ensures Reaches(start, Mutating(CANCEL_PENDING, map[CANCEL := Attempt(SendStarted, true)], [],
                                    [Cancelling(SendMutation(CANCEL, CANCEL_PENDING), Some(CANCEL)), other]))
  {
    hide Reaches, SubmitStep, Recover;
    var e := MutateEvent(0, Quietly());
    var taken := map[CANCEL := Attempt(JournaledNotSent, false)];
    var w := Mutating(ROW, map[], [], [Cancelling(CheckMutation, None), other]);
    var w1 := Mutating(ROW, map[], [], [Cancelling(AcquireMutation(NoBody), None), other]);
    var w2 := Mutating(ROW, taken, [], [Cancelling(SaveMutating(CANCEL, CANCEL_PENDING), Some(CANCEL)), other]);
    var w3 := Mutating(CANCEL_PENDING, taken, [], [Cancelling(MarkMutationStarted(CANCEL, CANCEL_PENDING), Some(CANCEL)), other]);
    Then(start, w, e);
    assert Step(w, e) == w1;
    Then(start, w1, e);
    assert Step(w1, e) == w2;
    Then(start, w2, e);
    assert Step(w2, e) == w3;
    Then(start, w3, e);
    assert Step(w3, e) == Mutating(CANCEL_PENDING, map[CANCEL := Attempt(SendStarted, true)], [],
                                   [Cancelling(SendMutation(CANCEL, CANCEL_PENDING), Some(CANCEL)), other]);
  }

  function Taken(decrease: Attempt): map<AttemptKey, Attempt> {
    map[CANCEL := Attempt(SendStarted, true), DECREASE := decrease]
  }

  /** Meanwhile a decrease of the same order gets ready, is told the order is filled, and stores that. */
  lemma {:induction false} DecreasePrepares(start: World, cancel: Mutate)
    requires Reaches(start, Mutating(CANCEL_PENDING, map[CANCEL := Attempt(SendStarted, true)], [],
                                     [cancel, Decreasing(CheckMutation, None)]))
    ensures Reaches(start, Mutating(DECREASE_PENDING, Taken(Attempt(SendStarted, true)), [],
                                    [cancel, Decreasing(SendMutation(DECREASE, DECREASE_PENDING), Some(DECREASE))]))
  {
    hide Reaches, SubmitStep, Recover;
    var e := MutateEvent(1, Quietly());
    var before, taken := map[CANCEL := Attempt(SendStarted, true)], Taken(Attempt(JournaledNotSent, false));
    var w := Mutating(CANCEL_PENDING, before, [], [cancel, Decreasing(CheckMutation, None)]);
    var w1 := Mutating(CANCEL_PENDING, before, [], [cancel, Decreasing(AcquireMutation(ReduceTo(1.0)), None)]);
    var w2 := Mutating(CANCEL_PENDING, taken, [], [cancel, Decreasing(SaveMutating(DECREASE, DECREASE_PENDING), Some(DECREASE))]);
    var w3 := Mutating(DECREASE_PENDING, taken, [], [cancel, Decreasing(MarkMutationStarted(DECREASE, DECREASE_PENDING), Some(DECREASE))]);
    Then(start, w, e);
    assert Step(w, e) == w1;
    Then(start, w1, e);
    assert Step(w1, e) == w2;
    Then(start, w2, e);
    assert Step(w2, e) == w3;
    Then(start, w3, e);
    assert Step(w3, e) == Mutating(DECREASE_PENDING, Taken(Attempt(SendStarted, true)), [],
                                   [cancel, Decreasing(SendMutation(DECREASE, DECREASE_PENDING), Some(DECREASE))]);
  }

  /** The stored row once the decrease has returned. */
  function Filling(cancel: Mutate): World {
    Mutating(FILLED, Taken(Attempt(Acknowledged, true)), [Mutation(DECREASE)],
             [cancel, Decreasing(MutateReturned(FILLED), Some(DECREASE))])
  }

  lemma {:induction false} DecreaseAnswered(cancel: Mutate)
    ensures Step(Mutating(DECREASE_PENDING, Taken(Attempt(SendStarted, true)), [],
                          [cancel, Decreasing(SendMutation(DECREASE, DECREASE_PENDING), Some(DECREASE))]),
                 MutateEvent(1, Answered(Response(200, None, Some(10.0), None)))) ==
            Mutating(DECREASE_PENDING, Taken(Attempt(SendStarted, true)), [Mutation(DECREASE)],
                     [cancel, Decreasing(AttemptOutcome(DECREASE, Acknowledged, true, Some(FILLED)), Some(DECREASE))])
  {
    hide SubmitStep, Recover, Taken;
  }

  lemma {:induction false} DecreaseReturns(start: World, cancel: Mutate)
    requires Reaches(start, Mutating(DECREASE_PENDING, Taken(Attempt(SendStarted, true)), [],
                                     [cancel, Decreasing(SendMutation(DECREASE, DECREASE_PENDING), Some(DECREASE))]))
    ensures Reaches(start, Filling(cancel))
  {
    hide Reaches, SubmitStep, Recover, ClassifyMutation, Transition, RequestBody;
    var e := MutateEvent(1, Answered(Response(200, None, Some(10.0), None)));
    var sent := [Mutation(DECREASE)];
    var w := Mutating(DECREASE_PENDING, Taken(Attempt(SendStarted, true)), [],
                      [cancel, Decreasing(SendMutation(DECREASE, DECREASE_PENDING), Some(DECREASE))]);
    var w1 := Mutating(DECREASE_PENDING, Taken(Attempt(SendStarted, true)), sent,
                       [cancel, Decreasing(AttemptOutcome(DECREASE, Acknowledged, true, Some(FILLED)), Some(DECREASE))]);
    var w2 := Mutating(DECREASE_PENDING, Taken(Attempt(Acknowledged, true)), sent,
                       [cancel, Decreasing(SaveMutated(DECREASE, FILLED), Some(DECREASE))]);
    Then(start, w, e);
    DecreaseAnswered(cancel);
    Then(start, w1, e);
    assert Step(w1, e) == w2;
    Then(start, w2, e);
    assert Step(w2, e) == Filling(cancel);
  }

  const LOST := map[CANCEL := Attempt(ResponseUnknown, true), DECREASE := Attempt(Acknowledged, true)]

  function Losing(row: LocalOrder, attempts: map<AttemptKey, Attempt>, pc: MutatePc, decrease: Mutate): World {
    Mutating(row, attempts, [Mutation(DECREASE), Mutation(CANCEL)], [Cancelling(pc, Some(CANCEL)), decrease])
  }

  /** Then the cancel's answer is lost. */
  lemma {:induction false} CancelLost(decrease: Mutate)
    ensures Step(Mutating(FILLED, Taken(Attempt(Acknowledged, true)), [Mutation(DECREASE)],
                          [Cancelling(SendMutation(CANCEL, CANCEL_PENDING), Some(CANCEL)), decrease]),
                 MutateEvent(0, Answered(TimeoutAfterSend))) ==
            Losing(FILLED, Taken(Attempt(Acknowledged, true)), AttemptOutcome(CANCEL, ResponseUnknown, true, Some(UNKNOWN)), decrease)
  {
    hide SubmitStep, Recover, Taken;
    assert [CreateOrder(EXECUTION, "client", "grant")] + [Mutation(DECREASE)] + [Mutation(CANCEL)] ==
           [CreateOrder(EXECUTION, "client", "grant")] + [Mutation(DECREASE), Mutation(CANCEL)];
  }

  /** And it stores what it knew. */
  lemma {:induction false} CancelForgets(decrease: Mutate)
    ensures Reaches(
              Mutating(FILLED, Taken(Attempt(Acknowledged, true)), [Mutation(DECREASE)],
                       [Cancelling(SendMutation(CANCEL, CANCEL_PENDING), Some(CANCEL)), decrease]),
              Losing(UNKNOWN, LOST, MutateReturned(UNKNOWN), decrease))
  {
    hide Reaches, SubmitStep, Recover, ClassifyMutation, Transition, RequestBody;
    var e := MutateEvent(0, Answered(TimeoutAfterSend));
    var w := Mutating(FILLED, Taken(Attempt(Acknowledged, true)), [Mutation(DECREASE)],
                      [Cancelling(SendMutation(CANCEL, CANCEL_PENDING), Some(CANCEL)), decrease]);
    var w1 := Losing(FILLED, Taken(Attempt(Acknowledged, true)), AttemptOutcome(CANCEL, ResponseUnknown, true, Some(UNKNOWN)), decrease);
    var w2 := Losing(FILLED, LOST, SaveMutated(CANCEL, UNKNOWN), decrease);
    Here(w);
    Then(w, w, e);
    CancelLost(decrease);
    Then(w, w1, e);
    assert Step(w1, e) == w2;
    Then(w, w2, e);
    assert Step(w2, e) == Losing(UNKNOWN, LOST, MutateReturned(UNKNOWN), decrease);
  }

  /**
   Two mutations of one freshly reconciled order, no recovery: the second is told the order is filled and
   stores a terminal FILLED row; the first loses its answer and puts that row back to an open one with no fill.
  */
  lemma {:induction false} FilledOrderReopened() returns (start: World, filled: World, reopened: World)
    ensures Beginning(start) && Reaches(start, filled) && Reaches(filled, reopened)
    ensures forall i :: 0 <= i < |start.mutates| ==> EngineOrders.Exact(start.mutates[i].order)
    ensures EXECUTION in filled.db.orders && filled.db.orders[EXECUTION].state == Filled && filled.db.orders[EXECUTION].filled == 10.0
    ensures EXECUTION in reopened.db.orders && !Terminal(reopened.db.orders[EXECUTION].state)
            && reopened.db.orders[EXECUTION].filled == 0.0
  {
    hide Reaches, SubmitStep, Recover;
    var mutates := [Cancelling(CheckMutation, None), Decreasing(CheckMutation, None)];
    var cancel := Cancelling(SendMutation(CANCEL, CANCEL_PENDING), Some(CANCEL));
    var decrease := Decreasing(MutateReturned(FILLED), Some(DECREASE));
    start, filled := Start(mutates), Filling(cancel);
    Opens(mutates);
    assert Opened(mutates) == Mutating(ROW, map[], [], mutates);
    CancelPrepares(start, Decreasing(CheckMutation, None));
    DecreasePrepares(start, cancel);
    DecreaseReturns(start, cancel);
    CancelForgets(decrease);
    reopened := Losing(UNKNOWN, LOST, MutateReturned(UNKNOWN), decrease);
  }

  /** Recovery does the same to a filled order on its own: the journal of an accepted order is never complete. */
  lemma {:induction false} RecoveryReopensFilled() returns (start: World, filled: World)
    ensures Beginning(start) && Reaches(start, filled)
    ensures EXECUTION in filled.db.orders && filled.db.orders[EXECUTION].state == Filled
    ensures EXECUTION in Step(filled, RecoverAll).db.orders && !Terminal(Step(filled, RecoverAll).db.orders[EXECUTION].state)
  {
    hide Reaches;
    var cancel := Cancelling(SendMutation(CANCEL, CANCEL_PENDING), Some(CANCEL));
    var mutates := [Cancelling(CheckMutation, None), Decreasing(CheckMutation, None)];
    start, filled := Start(mutates), Filling(cancel);
    Opens(mutates);
    assert Opened(mutates) == Mutating(ROW, map[], [], mutates);
    CancelPrepares(start, Decreasing(CheckMutation, None));
    DecreasePrepares(start, cancel);
    DecreaseReturns(start, cancel);
    EngineOrders.RecoveryKeepsTerminalExactly(filled.db, EXECUTION);
  }

  // ----- a cancel that provably never left -----

  lemma {:induction false} CancelTimesOut(start: World, other: Mutate)
    requires Reaches(start, Mutating(CANCEL_PENDING, map[CANCEL := Attempt(SendStarted, true)], [],
                                     [Cancelling(SendMutation(CANCEL, CANCEL_PENDING), Some(CANCEL)), other]))
    ensures Reaches(start, Mutating(CANCEL_PENDING, map[CANCEL := Attempt(ProvenUnsent, false)], [],
                                    [Cancelling(MutateRaised, Some(CANCEL)), other]))
  {
    hide Reaches, SubmitStep, Recover;
    var e := MutateEvent(0, Quietly());
    var w := Mutating(CANCEL_PENDING, map[CANCEL := Attempt(SendStarted, true)], [],
                      [Cancelling(SendMutation(CANCEL, CANCEL_PENDING), Some(CANCEL)), other]);
    var w1 := Mutating(CANCEL_PENDING, map[CANCEL := Attempt(SendStarted, true)], [],
                       [Cancelling(AttemptOutcome(CANCEL, ProvenUnsent, false, None), Some(CANCEL)), other]);
    Then(start, w, e);
    assert Step(w, e) == w1;
    Then(start, w1, e);
    assert Step(w1, e) == Mutating(CANCEL_PENDING, map[CANCEL := Attempt(ProvenUnsent, false)], [],
                                   [Cancelling(MutateRaised, Some(CANCEL)), other]);
  }

  /** A cancel proven unsent cannot be sent again: no later run lets a second one journal or send anything. */
  lemma {:induction false} UnsentCancelNeverRetried(more: seq<Event>) returns (start: World, unsent: World)
    ensures Beginning(start) && Reaches(start, unsent)
    ensures CANCEL in unsent.db.attempts && unsent.db.attempts[CANCEL] == Attempt(ProvenUnsent, false)
    ensures Mutation(CANCEL) !in unsent.sent
    ensures |unsent.mutates| == 2 && unsent.mutates[1].pc == CheckMutation && EngineAttempts.KeyOf(unsent.mutates[1]) == Some(CANCEL)
    ensures var v := Run(unsent, more);
            forall x :: Step(v, MutateEvent(1, x)).db == v.db && Step(v, MutateEvent(1, x)).sent == v.sent
  {
    hide Reaches, Step;
    var again := Cancelling(CheckMutation, None);
    var mutates := [again, again];
    start := Start(mutates);
    Opens(mutates);
    assert Opened(mutates) == Mutating(ROW, map[], [], mutates);
    CancelPrepares(start, again);
    CancelTimesOut(start, again);
    unsent := Mutating(CANCEL_PENDING, map[CANCEL := Attempt(ProvenUnsent, false)], [], [Cancelling(MutateRaised, Some(CANCEL)), again]);
    EngineAttempts.SameRequestNeverRetried(unsent, [], more, 1, CANCEL);
  }

  // ----- an order with another quantity -----

  /** A valid order of the same execution, but of a hundred contracts with fifty filled. */
  const FOREIGN := LIVE.(quantity := 100.0, filled := 50.0)

  /** Why callers must hand over orders with their execution's own quantity: the stored row ends up overfilled. */
  lemma {:induction false} ForeignQuantityOverfills() returns (start: World, overfilled: World)
    ensures Beginning(start) && Reaches(start, overfilled)
    ensures forall i :: 0 <= i < |start.mutates| ==> WellFormed(start.mutates[i].order)
    ensures EXECUTION in overfilled.db.orders && overfilled.db.orders[EXECUTION].filled > overfilled.db.orders[EXECUTION].quantity
  {
    hide Reaches, SubmitStep, Recover;
    var m := Cancelling(CheckMutation, None).(order := FOREIGN);
    var pending := FOREIGN.(state := CancellationPending, reconciliationRequired := true);
    var row := CANCEL_PENDING.(filled := 50.0);
    var taken := map[CANCEL := Attempt(JournaledNotSent, false)];
    var e := MutateEvent(0, Quietly());
    start := Start([m]);
    Opens([m]);
    var w := Mutating(ROW, map[], [], [m]);
    assert Opened([m]) == w;
    var w1 := Mutating(ROW, map[], [], [m.(pc := AcquireMutation(NoBody))]);
    var w2 := Mutating(ROW, taken, [], [m.(pc := SaveMutating(CANCEL, pending), key := Some(CANCEL))]);
    overfilled := Mutating(row, taken, [], [m.(pc := MarkMutationStarted(CANCEL, pending), key := Some(CANCEL))]);
    Then(start, w, e);
    assert Step(w, e) == w1;
    Then(start, w1, e);
    assert Step(w1, e) == w2;
    Then(start, w2, e);
    assert Step(w2, e) == overfilled;
  }
}
