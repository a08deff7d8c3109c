/** What makes a mutation impossible: its request cannot be built, its order is unfit, or its attempt is already journaled. */
module EngineAttempts {
  import opened OrderLifecycle
  import opened Engine

  /** Building a request raises exactly for a create, an ambiguous or zero decrease, and an unauthorized amend. */
  lemma {:induction false} RequestRaisesExactly(m: Mutate)
    ensures RequestBody(m) == None <==>
              match m.kind
              case Create => true
              case Cancel => false
              case Decrease => m.reduceBy.Some? == m.reduceTo.Some? || m.reduceBy == Some(0.0)
              case Amend => m.amend.None? || !m.amend.value.AmendTo?
  {
  }

  /** The request a call asks for: one of two ways to decrease, or the amendment as given. */
  predicate AsksFor(m: Mutate, body: Body) {
    match m.kind
    case Create => false
    case Cancel => body == NoBody
    case Decrease =>
      || (m.reduceTo == None && m.reduceBy.Some? && m.reduceBy.value != 0.0 && body == ReduceBy(m.reduceBy.value))
      || (m.reduceBy == None && m.reduceTo.Some? && body == ReduceTo(m.reduceTo.value))
    case Amend => body.AmendTo? && m.amend == Some(body)
  }

  lemma {:induction false} RequestExactly(m: Mutate, body: Body)
    ensures RequestBody(m) == Some(body) <==> AsksFor(m, body)
  {
  }

  function KeyOf(m: Mutate): Option<AttemptKey> {
    if RequestBody(m).Some? then Some(AttemptKey(m.order.executionId, m.kind, RequestBody(m).value)) else None
  }

  /** Why a `mutate` call raises before it journals anything. */
  predicate Refused(db: Db, m: Mutate) {
    || !m.clear || m.order.exchangeOrderId.None? || m.order.reconciliationRequired
    || KeyOf(m) == None || KeyOf(m).value in db.attempts
  }

  /** Apart from failing statements, a call journals its attempt exactly when it is not refused. */
  lemma {:induction false} RefusedExactly(db: Db, sent: seq<Sent>, m: Mutate, x: Input, y: Input)
    requires m.pc.CheckMutation? && m.key == None && !x.fails && !y.fails
    ensures var (checked, out, t) := MutateStep(db, sent, m, x);
            var (after, _, u) := MutateStep(checked, out, t, y);
            && (u.key.Some? <==> !Refused(db, m))
            && after == (if Refused(db, m) then db
                         else db.(attempts := db.attempts[KeyOf(m).value := Attempt(JournaledNotSent, false)]))
  {
    hide Transition, PendingState;
    RequestRaisesExactly(m);
  }

  lemma {:induction false} SubmitKeepsAttempts(db: Db, sent: seq<Sent>, s: Submit, x: Input)
    ensures SubmitStep(db, sent, s, x).0.attempts == db.attempts
  {
    hide Upserted, Classify, PendingOrder, JournalFree, Consumable, ExpireDue;
  }

  lemma {:induction false} MutateKeepsAttempts(db: Db, sent: seq<Sent>, m: Mutate, x: Input)
    ensures db.attempts.Keys <= MutateStep(db, sent, m, x).0.attempts.Keys
  {
    hide Upserted, ClassifyMutation, Transition, RequestBody, PendingState;
  }

  lemma {:induction false} AttemptsStay(w: World, e: Event)
    ensures w.db.attempts.Keys <= Step(w, e).db.attempts.Keys
  {
    hide SubmitStep, MutateStep;
    if e.SubmitEvent? && e.call < |w.submits| {
      SubmitKeepsAttempts(w.db, w.sent, w.submits[e.call], e.input);
    } else if e.MutateEvent? && e.call < |w.mutates| {
      MutateKeepsAttempts(w.db, w.sent, w.mutates[e.call], e.input);
    }
  }

  /** A journaled attempt stays journaled, whatever became of its request. */
  lemma {:induction false} AttemptsPermanent(w: World, events: seq<Event>, key: AttemptKey)
    requires key in w.db.attempts
    ensures key in Run(w, events).db.attempts
    decreases |events|
  {
    hide Step;
    if events != [] {
      AttemptsStay(w, events[0]);
      AttemptsPermanent(Step(w, events[0]), events[1..], key);
    }
  }

  /** A refused call that has not got further than its checks. */
  ghost predicate Stuck(db: Db, m: Mutate) {
    && Refused(db, m) && m.key == None
    && (|| m.pc.CheckMutation? || m.pc.MutateRaised?
        || (m.pc.AcquireMutation? && RequestBody(m) == Some(m.pc.body) && KeyOf(m).value in db.attempts))
  }

  lemma {:induction false} StuckStep(db: Db, sent: seq<Sent>, m: Mutate, x: Input)
    requires Stuck(db, m)
    ensures var (after, out, t) := MutateStep(db, sent, m, x); after == db && out == sent && Stuck(db, t)
  {
    hide Transition, PendingState;
  }

  lemma {:induction false} StuckStays(w: World, e: Event, i: nat)
    requires i < |w.mutates| && Stuck(w.db, w.mutates[i])
    ensures i < |Step(w, e).mutates| && Stuck(Step(w, e).db, Step(w, e).mutates[i])
    ensures e.MutateEvent? && e.call == i ==> Step(w, e).db == w.db && Step(w, e).sent == w.sent
  {
    hide SubmitStep, MutateStep, Recover, RequestBody;
    AttemptsStay(w, e);
    if e.MutateEvent? && e.call == i {
      StuckStep(w.db, w.sent, w.mutates[i], e.input);
    }
  }

  /**
   Once refused, a call never journals, stores or sends anything in any run. An attempt that was journaled
   once, PROVEN_UNSENT included, so stops every later mutation with the same request.
  */
  lemma {:induction false} RefusedForever(w: World, events: seq<Event>, i: nat)
    requires i < |w.mutates| && Stuck(w.db, w.mutates[i])
    ensures i < |Run(w, events).mutates| && Stuck(Run(w, events).db, Run(w, events).mutates[i])
    ensures forall x :: Step(Run(w, events), MutateEvent(i, x)).db == Run(w, events).db
    ensures forall x :: Step(Run(w, events), MutateEvent(i, x)).sent == Run(w, events).sent
    decreases |events|
  {
    hide Step, Stuck;
    if events == [] {
      forall x ensures Step(w, MutateEvent(i, x)).db == w.db && Step(w, MutateEvent(i, x)).sent == w.sent {
        StuckStays(w, MutateEvent(i, x), i);
      }
    } else {
      StuckStays(w, events[0], i);
      RefusedForever(Step(w, events[0]), events[1..], i);
    }
  }

  /** Every call with the key of a journaled attempt is refused, at any later moment of the run. */
  lemma {:induction false} SameRequestNeverRetried(w: World, events: seq<Event>, more: seq<Event>, i: nat, key: AttemptKey)
    requires key in w.db.attempts
    requires var v := Run(w, events); i < |v.mutates| && v.mutates[i].pc.CheckMutation? && v.mutates[i].key == None
                                      && KeyOf(v.mutates[i]) == Some(key)
    ensures var v := Run(w, events);
            forall x :: Step(Run(v, more), MutateEvent(i, x)).db == Run(v, more).db
                        && Step(Run(v, more), MutateEvent(i, x)).sent == Run(v, more).sent
  {
    hide Run, Step;
    AttemptsPermanent(w, events, key);
    RefusedForever(Run(w, events), more, i);
  }
}
