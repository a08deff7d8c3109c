/** Persisted orders, the reconciliation gate, and what recovery does to finished orders. */
module EngineOrders {
  import opened OrderLifecycle
  import opened Engine

  // ----- every persisted order keeps exact accounting -----

  /** Exact accounting against the quantity the execution was created for. */
  ghost predicate Exact(o: LocalOrder) {
    WellFormed(o) && o.quantity == o.executionId.intent.quantity
  }

  ghost predicate SubmitOrders(s: Submit) {
    && s.intent.quantity > 0.0
    && (s.pc.JournalOutcome? && s.pc.next.Some? ==> Exact(s.pc.next.value) && s.pc.next.value.executionId == Id(s))
    && (s.pc.SaveOutcome? ==> Exact(s.pc.order) && s.pc.order.executionId == Id(s))
  }

  ghost predicate MutateOrders(m: Mutate) {
    var id := m.order.executionId;
    && Exact(m.order)
    && (m.pc.SaveMutating? || m.pc.MarkMutationStarted? || m.pc.SendMutation? ==>
          && m.kind != Create
          && Transition(m.order, To(PendingState(m.kind), m.now)) == Ok(m.pc.pending))
    && (m.pc.AttemptOutcome? && m.pc.next.Some? ==> Exact(m.pc.next.value) && m.pc.next.value.executionId == id)
    && (m.pc.SaveMutated? ==> Exact(m.pc.order) && m.pc.order.executionId == id)
  }

  ghost predicate StoredOrders(db: Db) {
    forall e :: e in db.orders ==> Exact(db.orders[e]) && db.orders[e].executionId == e
  }

  ghost predicate OrdersInv(w: World) {
    && StoredOrders(w.db)
    && (forall i :: 0 <= i < |w.submits| ==> SubmitOrders(w.submits[i]))
    && (forall i :: 0 <= i < |w.mutates| ==> MutateOrders(w.mutates[i]))
  }

  /** Saving an exact order over an exact row of the same execution leaves an exact row. */
  lemma {:induction false} SaveKeepsExact(db: Db, o: LocalOrder)
    requires StoredOrders(db) && Exact(o)
    ensures StoredOrders(SaveOrder(db, o))
  {
  }

  /**
   In general a stored row keeps its quantity whatever the order says, so a valid order spoils a valid row
   exactly when its fill does not fit the quantity the row was stored with.
  */
  lemma {:induction false} SaveKeepsAccountingExactly(row: LocalOrder, o: LocalOrder)
    requires WellFormed(row) && WellFormed(o)
    ensures WellFormed(Upserted(row, o)) <==>
              && o.filled <= row.quantity
              && (o.state == PartiallyFilled ==> o.filled != row.quantity)
              && (o.state == Filled ==> o.quantity == row.quantity)
  {
  }

  lemma {:induction false} SubmitStepOrders(db: Db, sent: seq<Sent>, s: Submit, x: Input)
    requires StoredOrders(db) && SubmitOrders(s)
    ensures var (after, _, t) := SubmitStep(db, sent, s, x); StoredOrders(after) && SubmitOrders(t)
  {
    hide ExpireDue, Consumable, JournalFree, Classify, PendingOrder, Exact, SaveOrder;
    ClassifiedOrders(s, x.outcome);
    SaveKeepsExact(db, PendingOrder(s));
    if s.pc.SaveOutcome? {
      SaveKeepsExact(db, s.pc.order);
    }
  }

  lemma {:induction false} ClassifiedOrders(s: Submit, x: Outcome)
    requires s.intent.quantity > 0.0
    ensures Exact(PendingOrder(s)) && PendingOrder(s).executionId == Id(s) && SubmitOrders(s.(pc := Classify(s, x)))
  {
  }

  lemma {:induction false} MutateStepOrders(db: Db, sent: seq<Sent>, m: Mutate, x: Input)
    requires StoredOrders(db) && MutateOrders(m)
    ensures var (after, _, t) := MutateStep(db, sent, m, x); StoredOrders(after) && MutateOrders(t)
  {
    if m.pc.SaveMutating? {
      hide SaveOrder, ClassifyMutation, RequestBody;
      SaveKeepsExact(db, m.pc.pending);
    } else if m.pc.SaveMutated? {
      hide SaveOrder, ClassifyMutation, RequestBody, Exact;
      SaveKeepsExact(db, m.pc.order);
    } else if m.pc.SendMutation? {
      hide RequestBody, SaveOrder;
    } else {
      hide ClassifyMutation, Exact, SaveOrder, Transition;
    }
  }

  lemma {:induction false} StepOrders(w: World, e: Event)
    requires OrdersInv(w)
    ensures OrdersInv(Step(w, e))
  {
    hide SubmitStep, MutateStep, SubmitOrders, MutateOrders;
    match e {
      case SubmitEvent(i, x) =>
        if i < |w.submits| {
          SubmitStepOrders(w.db, w.sent, w.submits[i], x);
        }
      case MutateEvent(i, x) =>
        if i < |w.mutates| {
          MutateStepOrders(w.db, w.sent, w.mutates[i], x);
        }
      case _ =>
    }
  }

  lemma {:induction false} OrdersRun(w: World, events: seq<Event>)
    requires OrdersInv(w)
    ensures OrdersInv(Run(w, events))
    decreases |events|
  {
    hide OrdersInv, Step;
    if events != [] {
      StepOrders(w, events[0]);
      OrdersRun(Step(w, events[0]), events[1..]);
    }
  }

  /**
   Over every run, recoveries included, each persisted order has 0 <= filled <= quantity; FILLED means
   filled equals quantity and PARTIALLY_FILLED means strictly between. The callers' side of it is that
   intents have a positive quantity and that the orders handed to `mutate` are valid and carry the quantity
   of the intent their execution was created for.
  */
  lemma {:induction false} PersistedOrdersExact(w: World, events: seq<Event>, id: ExecutionId)
    requires Beginning(w) && id in Run(w, events).db.orders
    requires forall i :: 0 <= i < |w.submits| ==> w.submits[i].intent.quantity > 0.0
    requires forall i :: 0 <= i < |w.mutates| ==> Exact(w.mutates[i].order)
    ensures var o := Run(w, events).db.orders[id];
            && 0.0 <= o.filled <= o.quantity == id.intent.quantity && o.fees >= 0.0
            && (o.state == Filled ==> o.filled == o.quantity)
            && (o.state == PartiallyFilled ==> 0.0 < o.filled < o.quantity)
  {
    hide Run;
    OrdersRun(w, events);
    assert Exact(Run(w, events).db.orders[id]);
  }

  // ----- the reconciliation gate -----

  ghost predicate Blocked(m: Mutate) {
    && (m.order.reconciliationRequired || m.order.exchangeOrderId.None? || !m.clear)
    && (m.pc.CheckMutation? || m.pc.MutateRaised?) && m.key == None
  }

  lemma {:induction false} BlockedStep(w: World, e: Event, i: nat)
    requires i < |w.mutates| && Blocked(w.mutates[i])
    ensures i < |Step(w, e).mutates| && Blocked(Step(w, e).mutates[i])
    ensures e.MutateEvent? && e.call == i ==> Step(w, e).db == w.db && Step(w, e).sent == w.sent
  {
    hide SubmitStep, Recover;
  }

  /** A call on an order that still needs reconciliation never journals, stores or sends anything. */
  lemma {:induction false} NothingMutatedBeforeReconciliation(w: World, events: seq<Event>, i: nat)
    requires i < |w.mutates| && Blocked(w.mutates[i])
    ensures i < |Run(w, events).mutates| && Blocked(Run(w, events).mutates[i])
    ensures forall x :: var v := Run(w, events);
              MutateStep(v.db, v.sent, v.mutates[i], x).0 == v.db && MutateStep(v.db, v.sent, v.mutates[i], x).1 == v.sent
    decreases |events|
  {
    hide Step;
    if events != [] {
      BlockedStep(w, events[0], i);
      NothingMutatedBeforeReconciliation(Step(w, events[0]), events[1..], i);
    }
  }

  // ----- recovery -----

  /**
   Terminal orders do not survive recovery in general. Recovery leaves a terminal order as it is exactly
   when its journal is missing, RECONCILED or PROVEN_UNSENT.
  */
  lemma {:induction false} RecoveryKeepsTerminalExactly(db: Db, id: ExecutionId)
    requires id in db.orders && Terminal(db.orders[id].state)
    ensures Recover(db).orders[id] == db.orders[id] <==> (id !in db.journals || !Incomplete(db.journals[id]))
  {
  }

  /** Every order that `submit` rejects or accepts is open to recovery: its journal is never left complete. */
  lemma {:induction false} SubmitLeavesJournalIncomplete(s: Submit, x: Outcome, row: Journal)
    ensures match Classify(s, x)
            case JournalOutcome(state, maybeSent, next, _) =>
              Incomplete(row.(state := state, maybeSent := maybeSent)) <==> next.Some?
            case _ => true
  {
  }

  /** A second recovery changes nothing. */
  lemma {:induction false} RecoveryIdempotent(db: Db)
    ensures Recover(Recover(db)) == Recover(db)
  {
  }
}
