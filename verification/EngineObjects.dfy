/** The engine's mutable objects: the scripted exchange, the stores, and `submit` and `mutate` in their own statement order. */
module EngineObjects {
  import opened OrderLifecycle
  import opened Engine
  import EngineGuards
  import EngineSafety

  datatype FaultKind =
    | Accept
    | Reject
    | BeforeSend
    | AfterSend
    | RateLimit
    | ServerError
    | Malformed

  /** What each fault of the script makes of a request. */
  function AnswerOf(fault: FaultKind): Outcome {
    match fault
    case BeforeSend => TimeoutBeforeSend
    case AfterSend => TimeoutAfterSend
    case RateLimit => Response(429, None, None, None)
    case ServerError => Response(500, None, None, None)
    case Malformed => Response(200, None, None, None)
    case Reject => Response(400, None, None, None)
    case Accept => Response(201, Some("demo-order-1"), None, None)
  }

  function Answers(faults: seq<FaultKind>): (r: seq<Outcome>)
    ensures |r| == |faults| && forall i :: 0 <= i < |faults| ==> r[i] == AnswerOf(faults[i])
  {
    if faults == [] then [] else [AnswerOf(faults[0])] + Answers(faults[1..])
  }

  /** The next answer of a script; an exhausted script raises before anything is recorded. */
  function NextAnswer(script: seq<Outcome>): Outcome {
    if script == [] then Interrupted(false) else script[0]
  }

  /**
   The transport: it pops its script, and records every request that is not stopped before sending. A script
   of faults is the deterministic `FaultExchange`; a script of arbitrary outcomes stands for any transport.
  */
  class FaultExchange {
    var script: seq<Outcome>
    var sent: seq<Sent>

    constructor (script: seq<Outcome>)
      ensures this.script == script && sent == []
    {
      this.script := script;
      sent := [];
    }

    constructor OfFaults(faults: seq<FaultKind>)
      ensures script == Answers(faults) && sent == []
    {
      script := Answers(faults);
      sent := [];
    }

    method Call(request: Sent) returns (x: Outcome)
      modifies this
      ensures x == NextAnswer(old(script))
      ensures script == if old(script) == [] then [] else old(script)[1..]
      ensures sent == if ReachesExchange(x) then old(sent) + [request] else old(sent)
    {
      if script == [] {
        return Interrupted(false);
      }
      x := script[0];
      script := script[1..];
      if ReachesExchange(x) {
        sent := sent + [request];
      }
    }
  }

  /** One `submit` call stepping alone. */
  function Alone(db: Db, sent: seq<Sent>, s: Submit, inputs: seq<Input>): (Db, seq<Sent>, Submit)
    decreases |inputs|
  {
    if inputs == [] then (db, sent, s)
    else
      var (after, out, t) := SubmitStep(db, sent, s, inputs[0]);
      Alone(after, out, t, inputs[1..])
  }

  lemma {:induction false} FinishedStays(db: Db, sent: seq<Sent>, s: Submit, inputs: seq<Input>)
    requires s.pc.SubmitRaised? || s.pc.SubmitReturned?
    ensures Alone(db, sent, s, inputs) == (db, sent, s)
    decreases |inputs|
  {
    if inputs != [] {
      FinishedStays(db, sent, s, inputs[1..]);
    }
  }

  lemma {:induction false} AloneCons(db: Db, sent: seq<Sent>, s: Submit, inputs: seq<Input>, i: nat)
    requires i < |inputs|
    ensures Alone(db, sent, s, inputs[i..]) ==
            (var (after, out, t) := SubmitStep(db, sent, s, inputs[i]); Alone(after, out, t, inputs[i + 1..]))
  {
  }

  /** One `mutate` call stepping alone. */
  function AloneMutation(db: Db, sent: seq<Sent>, m: Mutate, inputs: seq<Input>): (Db, seq<Sent>, Mutate)
    decreases |inputs|
  {
    if inputs == [] then (db, sent, m)
    else
      var (after, out, t) := MutateStep(db, sent, m, inputs[0]);
      AloneMutation(after, out, t, inputs[1..])
  }

  lemma {:induction false} MutationFinishedStays(db: Db, sent: seq<Sent>, m: Mutate, inputs: seq<Input>)
    requires m.pc.MutateRaised? || m.pc.MutateReturned?
    ensures AloneMutation(db, sent, m, inputs) == (db, sent, m)
    decreases |inputs|
  {
    if inputs != [] {
      MutationFinishedStays(db, sent, m, inputs[1..]);
    }
  }

  lemma {:induction false} AloneMutationCons(db: Db, sent: seq<Sent>, m: Mutate, inputs: seq<Input>, i: nat)
    requires i < |inputs|
    ensures AloneMutation(db, sent, m, inputs[i..]) ==
            (var (after, out, t) := MutateStep(db, sent, m, inputs[i]); AloneMutation(after, out, t, inputs[i + 1..]))
  {
  }

  lemma {:induction false} ClassifiedMutationKinds(m: Mutate, key: AttemptKey, pending: LocalOrder, x: Outcome)
    ensures var pc := ClassifyMutation(m, key, pending, x);
            pc.MutateRaised? || (pc.AttemptOutcome? && pc.key == key)
  {
    hide AckOrder, Moved;
  }

  /** The SQLite tables of `ExecutionStore`; a failing statement has no effect. */
  class ExecutionStore {
    var journals: map<ExecutionId, Journal>
    var orders: map<ExecutionId, LocalOrder>
    var attempts: map<AttemptKey, Attempt>

    constructor ()
      ensures journals == map[] && orders == map[] && attempts == map[]
    {
      journals, orders, attempts := map[], map[], map[];
    }

    ghost function WithAuthorizations(auths: map<string, Authorization>): Db
      reads this
    {
      Db(journals, orders, attempts, auths)
    }

    method AcquireJournal(id: ExecutionId, clientOrderId: string, authorizationId: string, fails: bool) returns (ok: bool)
      modifies this`journals
      ensures ok <==> !fails && JournalFree(old(WithAuthorizations(map[])), id, clientOrderId, authorizationId)
      ensures journals == if ok then old(journals)[id := Journal(clientOrderId, authorizationId, JournaledNotSent, false)]
                          else old(journals)
    {
      ok := !fails && id !in journals &&
        forall e | e in journals ::
          journals[e].clientOrderId != clientOrderId && journals[e].authorizationId != authorizationId;
      if ok {
        journals := journals[id := Journal(clientOrderId, authorizationId, JournaledNotSent, false)];
      }
    }

    method JournalState(id: ExecutionId, state: JournalState, maybeSent: bool)
      modifies this`journals
      ensures forall auths :: WithAuthorizations(auths) == SetJournal(old(WithAuthorizations(auths)), id, state, maybeSent)
    {
      if id in journals {
        journals := journals[id := journals[id].(state := state, maybeSent := maybeSent)];
      }
    }

    /** The attempt's key is everything its identity hashes, so an identical mutation finds it taken. */
    method AcquireMutation(key: AttemptKey, fails: bool) returns (ok: bool)
      modifies this`attempts
      ensures ok <==> !fails && key !in old(attempts)
      ensures attempts == if ok then old(attempts)[key := Attempt(JournaledNotSent, false)] else old(attempts)
    {
      ok := !fails && key !in attempts;
      if ok {
        attempts := attempts[key := Attempt(JournaledNotSent, false)];
      }
    }

    method MutationState(key: AttemptKey, state: JournalState, maybeSent: bool)
      modifies this`attempts
      ensures forall auths :: WithAuthorizations(auths) == SetAttempt(old(WithAuthorizations(auths)), key, state, maybeSent)
    {
      if key in attempts {
        attempts := attempts[key := Attempt(state, maybeSent)];
      }
    }

    /** A new row is inserted whole; a stored one keeps its price, its quantity and a known exchange id. */
    method SaveOrder(o: LocalOrder)
      modifies this`orders
      ensures forall auths :: WithAuthorizations(auths) == Engine.SaveOrder(old(WithAuthorizations(auths)), o)
    {
      var id := o.executionId;
      if id in orders {
        var row := orders[id];
        orders := orders[id := row.(filled := o.filled, fees := o.fees, state := o.state, updatedAt := o.updatedAt,
                                    exchangeOrderId := if o.exchangeOrderId.Some? then o.exchangeOrderId
                                                       else row.exchangeOrderId,
                                    reconciliationRequired := o.reconciliationRequired)];
      } else {
        orders := orders[id := o];
      }
    }

    /** `recover`: one pass over the incomplete journals, two updates each. */
    method Recover() returns (recovered: set<ExecutionId>)
      modifies this
      ensures forall auths :: WithAuthorizations(auths) == Engine.Recover(old(WithAuthorizations(auths)))
      ensures recovered == set e | e in old(journals) && Incomplete(old(journals)[e])
      ensures attempts == old(attempts)
    {
      recovered := set e | e in journals && Incomplete(journals[e]);
      ghost var js, os := journals, orders;
      var todo := recovered;
      while todo != {}
        invariant todo <= recovered
        invariant journals.Keys == js.Keys && orders.Keys == os.Keys && attempts == old(attempts)
        invariant forall e :: e in js ==>
                    journals[e] == if e in recovered && e !in todo then js[e].(state := RecoveryRequired) else js[e]
        invariant forall e :: e in os ==>
                    orders[e] == if e in recovered && e !in todo
                                 then os[e].(state := ReconciliationUnknown, reconciliationRequired := true) else os[e]
        decreases todo
      {
        var e :| e in todo;
        journals := journals[e := journals[e].(state := RecoveryRequired)];
        if e in orders {
          orders := orders[e := orders[e].(state := ReconciliationUnknown, reconciliationRequired := true)];
        }
        todo := todo - {e};
      }
      ghost var after := Engine.Recover(Db(js, os, attempts, map[]));
      assert journals == after.journals;
      assert orders == after.orders;
    }
  }

  /** `AuthorizationStore`: due authorizations expire first; consumption is a single guarded update. */
  class AuthorizationStore {
    var rows: map<string, Authorization>

    constructor ()
      ensures rows == map[]
    {
      rows := map[];
    }

    method Consume(s: Submit, x: Input) returns (ok: bool)
      modifies this
      ensures var due := ExpireDue(old(rows), x.clock);
              && (ok <==> s.authorizationId in due && Consumable(s, due[s.authorizationId], x))
              && rows == if ok then due[s.authorizationId := due[s.authorizationId].(state := Consumed)] else due
      ensures ok <==> s.authorizationId in old(rows) && EngineGuards.Grants(old(rows)[s.authorizationId], s, x)
      ensures rows.Keys == old(rows).Keys
      ensures forall a :: a in rows ==>
                rows[a] == old(rows)[a].(state := if ok && a == s.authorizationId then Consumed
                                                  else if old(rows)[a].state == Issued && old(rows)[a].expiresAt <= x.clock then Expired
                                                  else old(rows)[a].state)
    {
      var before := rows;
      var expired := set a | a in rows && rows[a].state == Issued && rows[a].expiresAt <= x.clock;
      var todo := expired;
      while todo != {}
        invariant todo <= expired && rows.Keys == before.Keys
        invariant forall a :: a in before ==>
                    rows[a] == if a in expired && a !in todo then before[a].(state := Expired) else before[a]
        decreases todo
      {
        var a :| a in todo;
        rows := rows[a := rows[a].(state := Expired)];
        todo := todo - {a};
      }
      assert rows == ExpireDue(before, x.clock);
      ok := s.authorizationId in rows && Consumable(s, rows[s.authorizationId], x);
      if ok {
        rows := rows[s.authorizationId := rows[s.authorizationId].(state := Consumed)];
      }
    }
  }

  class ExecutionEngine {
    const store: ExecutionStore
    const authorizations: AuthorizationStore
    const exchange: FaultExchange

    constructor (store: ExecutionStore, authorizations: AuthorizationStore, exchange: FaultExchange)
      ensures this.store == store && this.authorizations == authorizations && this.exchange == exchange
    {
      this.store := store;
      this.authorizations := authorizations;
      this.exchange := exchange;
    }

    ghost function State(): Db
      reads this, store, authorizations
    {
      store.WithAuthorizations(authorizations.rows)
    }

    /**
     `submit` in its own statement order; `x` holds what the environment does at each operation, the send
     being the transport's next answer. It is the protocol's call stepping alone.
    */
    method Submit(s: Submit, x: seq<Input>) returns (r: Submit)
      requires s.pc == CheckSubmit && |x| == 8 && x[5].outcome == NextAnswer(exchange.script)
      modifies exchange, store, authorizations
      ensures (State(), exchange.sent, r) == Alone(old(State()), old(exchange.sent), s, x)
    {
      hide Classify, PendingOrder, JournalFree, Consumable, ExpireDue;
      ghost var start := Alone(State(), exchange.sent, s, x);
      r := s;
      assert x[0..] == x;
      AloneCons(State(), exchange.sent, r, x, 0);
      if x[0].fails || s.intent != s.authorizedIntent || !s.clear || s.expiresAt <= s.now {
        r := r.(pc := SubmitRaised);
        FinishedStays(State(), exchange.sent, r, x[1..]);
        return;
      }
      r := r.(pc := AcquireJournal);
      assert Alone(State(), exchange.sent, r, x[1..]) == start;
      AloneCons(State(), exchange.sent, r, x, 1);
      ghost var before := State();
      var owned := store.AcquireJournal(Id(s), s.intent.clientOrderId, s.authorizationId, x[1].fails);
      SameFreedom(before, map[], Id(s), s.intent.clientOrderId, s.authorizationId);
      if !owned {
        r := r.(pc := SubmitRaised);
        FinishedStays(State(), exchange.sent, r, x[2..]);
        return;
      }
      r := r.(pc := SavePending, owns := true);
      assert Alone(State(), exchange.sent, r, x[2..]) == start;
      r := SendOwned(r, x);
    }

    /** The part of `submit` after the journal is owned. */
    method SendOwned(s: Submit, x: seq<Input>) returns (r: Submit)
      requires s.pc == SavePending && |x| == 8 && x[5].outcome == NextAnswer(exchange.script)
      modifies exchange, store, authorizations
      ensures (State(), exchange.sent, r) == Alone(old(State()), old(exchange.sent), s, x[2..])
    {
      hide Classify, PendingOrder, Consumable, ExpireDue, JournalFree, Upserted;
      ghost var start := Alone(State(), exchange.sent, s, x[2..]);
      r := s;
      AloneCons(State(), exchange.sent, r, x, 2);
      if x[2].fails {
        r := r.(pc := SubmitRaised);
        FinishedStays(State(), exchange.sent, r, x[3..]);
        return;
      }
      PendingIgnoresPc(s, r);
      store.SaveOrder(PendingOrder(s));
      r := r.(pc := ConsumeAuthorization);
      assert Alone(State(), exchange.sent, r, x[3..]) == start;
      AloneCons(State(), exchange.sent, r, x, 3);
      if x[3].fails {
        r := r.(pc := SubmitRaised);
        FinishedStays(State(), exchange.sent, r, x[4..]);
        return;
      }
      var consumed := authorizations.Consume(r, x[3]);
      if !consumed {
        r := r.(pc := MarkUnconsumed);
        assert Alone(State(), exchange.sent, r, x[4..]) == start;
        AloneCons(State(), exchange.sent, r, x, 4);
        if !x[4].fails {
          store.JournalState(Id(s), AuthorizationNotConsumed, false);
        }
        r := r.(pc := SubmitRaised);
        FinishedStays(State(), exchange.sent, r, x[5..]);
        return;
      }
      r := r.(pc := MarkStarted);
      assert Alone(State(), exchange.sent, r, x[4..]) == start;
      r := Send(r, x);
    }

    /** Announce the send, send, and persist what came back. */
    method Send(s: Submit, x: seq<Input>) returns (r: Submit)
      requires s.pc == MarkStarted && |x| == 8 && x[5].outcome == NextAnswer(exchange.script)
      modifies exchange, store
      ensures (State(), exchange.sent, r) == Alone(old(State()), old(exchange.sent), s, x[4..])
    {
      hide Classify, PendingOrder;
      ghost var start := Alone(State(), exchange.sent, s, x[4..]);
      r := s;
      AloneCons(State(), exchange.sent, r, x, 4);
      if x[4].fails {
        r := r.(pc := SubmitRaised);
        FinishedStays(State(), exchange.sent, r, x[5..]);
        return;
      }
      store.JournalState(Id(s), SendStarted, true);
      r := r.(pc := SendCreate);
      assert Alone(State(), exchange.sent, r, x[5..]) == start;
      AloneCons(State(), exchange.sent, r, x, 5);
      var outcome := exchange.Call(Outgoing(r));
      r := r.(pc := Classify(r, outcome));
      assert Alone(State(), exchange.sent, r, x[6..]) == start;
      ClassifiedKinds(r.(pc := SendCreate), x[5].outcome);
      if r.pc.SubmitRaised? {
        FinishedStays(State(), exchange.sent, r, x[6..]);
        return;
      }
      r := Persist(r, x);
    }

    /** Journal the outcome, then save the order it led to, if any. */
    method Persist(s: Submit, x: seq<Input>) returns (r: Submit)
      requires s.pc.JournalOutcome? && |x| == 8
      modifies store
      ensures (State(), exchange.sent, r) == Alone(old(State()), exchange.sent, s, x[6..])
    {
      hide Classify, PendingOrder, Consumable, ExpireDue, JournalFree, Upserted;
      ghost var start := Alone(State(), exchange.sent, s, x[6..]);
      r := s;
      AloneCons(State(), exchange.sent, r, x, 6);
      if x[6].fails {
        r := r.(pc := SubmitRaised);
        FinishedStays(State(), exchange.sent, r, x[7..]);
        return;
      }
      var next, raises := r.pc.next, r.pc.raises;
      store.JournalState(Id(s), r.pc.state, r.pc.maybeSent);
      if next.None? {
        r := r.(pc := SubmitRaised);
        FinishedStays(State(), exchange.sent, r, x[7..]);
        return;
      }
      r := r.(pc := SaveOutcome(next.value, raises));
      assert Alone(State(), exchange.sent, r, x[7..]) == start;
      AloneCons(State(), exchange.sent, r, x, 7);
      assert x[8..] == [];
      if x[7].fails {
        r := r.(pc := SubmitRaised);
        return;
      }
      store.SaveOrder(next.value);
      r := r.(pc := if raises then SubmitRaised else SubmitReturned(next.value));
    }

    /** `mutate` in its own statement order, as one call stepping alone. */
    method Mutate(m: Mutate, x: seq<Input>) returns (r: Mutate)
      requires m.pc == CheckMutation && |x| == 7 && x[4].outcome == NextAnswer(exchange.script)
      modifies exchange, store
      ensures (State(), exchange.sent, r) == AloneMutation(old(State()), old(exchange.sent), m, x)
    {
      hide RequestBody, Transition, ClassifyMutation, PendingState;
      ghost var start := AloneMutation(State(), exchange.sent, m, x);
      r := m;
      assert x[0..] == x;
      AloneMutationCons(State(), exchange.sent, r, x, 0);
      var body := RequestBody(m);
      if x[0].fails || !m.clear || m.order.exchangeOrderId.None? || m.order.reconciliationRequired || body.None? {
        r := r.(pc := MutateRaised);
        MutationFinishedStays(State(), exchange.sent, r, x[1..]);
        return;
      }
      r := r.(pc := AcquireMutation(body.value));
      assert AloneMutation(State(), exchange.sent, r, x[1..]) == start;
      AloneMutationCons(State(), exchange.sent, r, x, 1);
      var key := AttemptKey(m.order.executionId, m.kind, body.value);
      if m.kind == Create {
        r := r.(pc := MutateRaised);
        MutationFinishedStays(State(), exchange.sent, r, x[2..]);
        return;
      }
      var acquired := store.AcquireMutation(key, x[1].fails);
      if !acquired {
        r := r.(pc := MutateRaised);
        MutationFinishedStays(State(), exchange.sent, r, x[2..]);
        return;
      }
      var pending := Transition(m.order, To(PendingState(m.kind), m.now));
      if pending.Err? {
        r := r.(key := Some(key), pc := MutateRaised);
        MutationFinishedStays(State(), exchange.sent, r, x[2..]);
        return;
      }
      r := r.(key := Some(key), pc := SaveMutating(key, pending.value));
      assert AloneMutation(State(), exchange.sent, r, x[2..]) == start;
      r := SendJournaled(r, x);
    }

    /** The part of `mutate` after its attempt is journaled. */
    method SendJournaled(m: Mutate, x: seq<Input>) returns (r: Mutate)
      requires m.pc.SaveMutating? && |x| == 7 && x[4].outcome == NextAnswer(exchange.script)
      modifies exchange, store
      ensures (State(), exchange.sent, r) == AloneMutation(old(State()), old(exchange.sent), m, x[2..])
    {
      hide ClassifyMutation;
      ghost var start := AloneMutation(State(), exchange.sent, m, x[2..]);
      var key, pending := m.pc.key, m.pc.pending;
      r := m;
      AloneMutationCons(State(), exchange.sent, r, x, 2);
      if x[2].fails {
        r := r.(pc := MutateRaised);
        MutationFinishedStays(State(), exchange.sent, r, x[3..]);
        return;
      }
      store.SaveOrder(pending);
      r := r.(pc := MarkMutationStarted(key, pending));
      assert AloneMutation(State(), exchange.sent, r, x[3..]) == start;
      AloneMutationCons(State(), exchange.sent, r, x, 3);
      if x[3].fails {
        r := r.(pc := MutateRaised);
        MutationFinishedStays(State(), exchange.sent, r, x[4..]);
        return;
      }
      store.MutationState(key, SendStarted, true);
      r := r.(pc := SendMutation(key, pending));
      assert AloneMutation(State(), exchange.sent, r, x[4..]) == start;
      AloneMutationCons(State(), exchange.sent, r, x, 4);
      var outcome := exchange.Call(Mutation(key));
      ClassifiedMutationKinds(r, key, pending, outcome);
      r := r.(pc := ClassifyMutation(r, key, pending, outcome));
      assert AloneMutation(State(), exchange.sent, r, x[5..]) == start;
      if r.pc.MutateRaised? {
        MutationFinishedStays(State(), exchange.sent, r, x[5..]);
        return;
      }
      r := PersistMutation(r, x);
    }

    /** Record the attempt's outcome, then save the order it led to, if any. */
    method PersistMutation(m: Mutate, x: seq<Input>) returns (r: Mutate)
      requires m.pc.AttemptOutcome? && |x| == 7
      modifies store
      ensures (State(), exchange.sent, r) == AloneMutation(old(State()), exchange.sent, m, x[5..])
    {
      ghost var start := AloneMutation(State(), exchange.sent, m, x[5..]);
      var key, next := m.pc.key, m.pc.next;
      r := m;
      AloneMutationCons(State(), exchange.sent, r, x, 5);
      if x[5].fails {
        r := r.(pc := MutateRaised);
        MutationFinishedStays(State(), exchange.sent, r, x[6..]);
        return;
      }
      store.MutationState(key, r.pc.state, r.pc.maybeSent);
      if next.None? {
        r := r.(pc := MutateRaised);
        MutationFinishedStays(State(), exchange.sent, r, x[6..]);
        return;
      }
      r := r.(pc := SaveMutated(key, next.value));
      assert AloneMutation(State(), exchange.sent, r, x[6..]) == start;
      AloneMutationCons(State(), exchange.sent, r, x, 6);
      assert x[7..] == [];
      if x[6].fails {
        r := r.(pc := MutateRaised);
        return;
      }
      store.SaveOrder(next.value);
      r := r.(pc := MutateReturned(next.value));
    }
  }

  lemma {:induction false} SameFreedom(db: Db, auths: map<string, Authorization>, id: ExecutionId, clientOrderId: string, authorizationId: string)
    ensures JournalFree(db, id, clientOrderId, authorizationId) <==>
            JournalFree(db.(authorizations := auths), id, clientOrderId, authorizationId)
  {
  }

  lemma {:induction false} PendingIgnoresPc(s: Submit, t: Submit)
    requires s.intent == t.intent && s.mode == t.mode && s.now == t.now
    ensures PendingOrder(s) == PendingOrder(t)
  {
  }

  lemma {:induction false} ClassifiedKinds(s: Submit, x: Outcome)
    ensures Classify(s, x).JournalOutcome? || Classify(s, x).SubmitRaised?
  {
  }

  /** What `submit` makes of each scripted fault: only one stops the request, only one accepts the order. */
  lemma {:induction false} FaultOutcomes(s: Submit, fault: FaultKind)
    requires s.intent.quantity > 0.0
    ensures ReachesExchange(AnswerOf(fault)) <==> fault != BeforeSend
    ensures var pc := Classify(s, AnswerOf(fault));
            && pc.JournalOutcome?
            && (pc.raises <==> fault == BeforeSend || fault == AfterSend)
            && (pc.next == None <==> fault == BeforeSend)
            && (pc.next.Some? ==>
                  && (pc.next.value.state == Accepted <==> fault == Accept)
                  && (pc.next.value.exchangeOrderId.Some? <==> fault == Accept)
                  && (pc.next.value.state == Rejected <==> fault == Reject)
                  && (pc.next.value.state == ReconciliationUnknown <==>
                        fault == AfterSend || fault == RateLimit || fault == ServerError || fault == Malformed))
  {
    EngineSafety.SubmitOutcomes(s, AnswerOf(fault));
    hide Classify, PendingOrder, WellFormed;
  }
}
