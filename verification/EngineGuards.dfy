/** What stands behind every request that reached the exchange: the checks its call passed and the authorization it consumed. */
module EngineGuards {
  import opened OrderLifecycle
  import opened Engine
  import opened EngineAttempts

  // ----- a create request -----

  /** The material checks of a `submit` call. */
  predicate Sound(s: Submit) {
    s.clear && s.intent == s.authorizedIntent && s.expiresAt > s.now
  }

  /** An authorization that may be consumed for the call at this moment. */
  predicate Grants(a: Authorization, s: Submit, x: Input) {
    && a.state == Issued && x.clock < a.expiresAt
    && a.intent == s.intent && a.portfolio == s.portfolio && a.safety == s.safety
    && !x.halted && x.compliant
  }

  /** Event `j` of the run found such an authorization stored under the id that call `i` names. */
  ghost predicate GrantedAt(w: World, events: seq<Event>, i: nat, j: nat) {
    && i < |w.submits| && j < |events|
    && events[j].SubmitEvent? && events[j].call == i && !events[j].input.fails
    && var id, rows := w.submits[i].authorizationId, Run(w, events[..j]).db.authorizations;
       id in rows && Grants(rows[id], w.submits[i], events[j].input)
  }

  ghost predicate Granted(w: World, events: seq<Event>, i: nat) {
    exists j: nat :: GrantedAt(w, events, i, j)
  }

  /** The same call, however far it got. */
  predicate SameCall(s: Submit, t: Submit) {
    t == s.(pc := t.pc, owns := t.owns)
  }

  predicate Checked(pc: SubmitPc) {
    pc.AcquireJournal? || pc.SavePending? || pc.ConsumeAuthorization? || pc.MarkStarted? || pc.SendCreate?
  }

  ghost predicate CallGuarded(w: World, events: seq<Event>, i: nat, t: Submit)
    requires i < |w.submits|
  {
    && SameCall(w.submits[i], t)
    && (Checked(t.pc) ==> Sound(w.submits[i]))
    && (t.pc.MarkStarted? || t.pc.SendCreate? ==> Granted(w, events, i))
  }

  /** Call `i` of the run sent this request, and was entitled to. */
  ghost predicate Entitled(w: World, events: seq<Event>, i: nat, e: Sent) {
    i < |w.submits| && e == Outgoing(w.submits[i]) && Sound(w.submits[i]) && Granted(w, events, i)
  }

  ghost predicate Guarded(w: World, events: seq<Event>, v: World) {
    && |v.submits| == |w.submits|
    && (forall i :: 0 <= i < |w.submits| ==> CallGuarded(w, events, i, v.submits[i]))
    && (forall k :: 0 <= k < |v.sent| && v.sent[k].CreateOrder? ==> exists i: nat :: Entitled(w, events, i, v.sent[k]))
  }

  lemma {:induction false} RunSnoc(w: World, events: seq<Event>, e: Event)
    ensures Run(w, events + [e]) == Step(Run(w, events), e)
    decreases |events|
  {
    hide Step;
    if events == [] {
      assert ([] + [e])[1..] == [];
    } else {
      assert (events + [e])[1..] == events[1..] + [e];
      RunSnoc(Step(w, events[0]), events[1..], e);
    }
  }

  lemma {:induction false} GrantedStays(w: World, events: seq<Event>, e: Event, i: nat)
    requires Granted(w, events, i)
    ensures Granted(w, events + [e], i)
  {
    hide Run;
    var j: nat :| GrantedAt(w, events, i, j);
    assert (events + [e])[..j] == events[..j] && (events + [e])[j] == events[j];
    assert GrantedAt(w, events + [e], i, j);
  }

  lemma {:induction false} EntitledStays(w: World, events: seq<Event>, e: Event, i: nat, r: Sent)
    requires Entitled(w, events, i, r)
    ensures Entitled(w, events + [e], i, r)
  {
    hide Granted;
    GrantedStays(w, events, e, i);
  }

  /** What the call's own step does to what is known of it. */
  lemma {:induction false} GuardedMove(db: Db, sent: seq<Sent>, s: Submit, x: Input)
    ensures var (_, out, t) := SubmitStep(db, sent, s, x);
            && SameCall(s, t)
            && (Checked(t.pc) ==> Checked(s.pc) || Sound(s))
            && (t.pc.SendCreate? ==> s.pc.MarkStarted?)
            && (t.pc.MarkStarted? ==>
                  && s.pc.ConsumeAuthorization? && !x.fails
                  && s.authorizationId in db.authorizations && Grants(db.authorizations[s.authorizationId], s, x))
            && (out == sent || (out == sent + [Outgoing(s)] && s.pc.SendCreate?))
  {
    hide Classify, PendingOrder, JournalFree, SaveOrder, SetJournal;
    ClassifyEnds(s, x.outcome);
  }

  lemma {:induction false} ClassifyEnds(s: Submit, x: Outcome)
    ensures Classify(s, x).SubmitRaised? || Classify(s, x).JournalOutcome?
  {
  }

  lemma {:induction false} SameCallChain(s: Submit, t: Submit, u: Submit)
    requires SameCall(s, t) && SameCall(t, u)
    ensures SameCall(s, u) && Outgoing(t) == Outgoing(s) && (Sound(t) <==> Sound(s))
    ensures forall a, x :: Grants(a, t, x) <==> Grants(a, s, x)
  {
  }

  lemma {:induction false} OwnStep(w: World, events: seq<Event>, i: nat, x: Input)
    requires Guarded(w, events, Run(w, events)) && i < |w.submits|
    ensures var e := SubmitEvent(i, x);
            var (_, out, t) := SubmitStep(Run(w, events).db, Run(w, events).sent, Run(w, events).submits[i], x);
            && CallGuarded(w, events + [e], i, t)
            && (out == Run(w, events).sent
                || (out == Run(w, events).sent + [Outgoing(w.submits[i])] && Entitled(w, events + [e], i, Outgoing(w.submits[i]))))
  {
    hide Run, SubmitStep, SameCall, Sound, Grants, Granted, Checked;
    var e, v := SubmitEvent(i, x), Run(w, events);
    var s := v.submits[i];
    var t := SubmitStep(v.db, v.sent, s, x).2;
    GuardedMove(v.db, v.sent, s, x);
    SameCallChain(w.submits[i], s, t);
    if Granted(w, events, i) {
      GrantedStays(w, events, e, i);
    } else if t.pc.MarkStarted? {
      assert (events + [e])[..|events|] == events && (events + [e])[|events|] == e;
      assert s.authorizationId == w.submits[i].authorizationId by {
        assert SameCall(w.submits[i], s);
        SameAuthorization(w.submits[i], s);
      }
      assert GrantedAt(w, events + [e], i, |events|);
      GrantedBy(w, events + [e], i, |events|);
    }
    CheckedPlaces(s.pc);
  }

  lemma {:induction false} SameAuthorization(s: Submit, t: Submit)
    requires SameCall(s, t)
    ensures t.authorizationId == s.authorizationId
  {
  }

  lemma {:induction false} GrantedBy(w: World, events: seq<Event>, i: nat, j: nat)
    requires GrantedAt(w, events, i, j)
    ensures Granted(w, events, i)
  {
    hide GrantedAt;
  }

  lemma {:induction false} CheckedPlaces(pc: SubmitPc)
    ensures pc.SendCreate? || pc.MarkStarted? || pc.ConsumeAuthorization? ==> Checked(pc)
  {
  }

  lemma {:induction false} OtherSteps(v: World, e: Event)
    requires !e.SubmitEvent?
    ensures var u := Step(v, e);
            && u.submits == v.submits
            && (u.sent == v.sent || (|u.sent| == |v.sent| + 1 && u.sent[..|v.sent|] == v.sent && u.sent[|v.sent|].Mutation?))
  {
    hide ClassifyMutation, Transition, RequestBody, PendingState, SaveOrder, SetAttempt, Recover, Moved;
    if e.MutateEvent? && e.call < |v.mutates| {
      var out := MutateStep(v.db, v.sent, v.mutates[e.call], e.input).1;
      assert out == v.sent || out[..|v.sent|] == v.sent;
    }
  }

  lemma {:induction false} CallStays(w: World, events: seq<Event>, e: Event, i: nat, t: Submit)
    requires i < |w.submits| && CallGuarded(w, events, i, t)
    ensures CallGuarded(w, events + [e], i, t)
  {
    hide Granted, SameCall, Checked, Sound;
    if Granted(w, events, i) {
      GrantedStays(w, events, e, i);
    }
  }

  lemma {:induction false} GuardedStep(w: World, events: seq<Event>, e: Event)
    requires Guarded(w, events, Run(w, events))
    ensures Guarded(w, events + [e], Run(w, events + [e]))
  {
    hide Run, SubmitStep, MutateStep, CallGuarded, Entitled, Recover;
    RunSnoc(w, events, e);
    var v := Run(w, events);
    var u := Step(v, e);
    forall i | 0 <= i < |w.submits| ensures CallGuarded(w, events + [e], i, v.submits[i]) {
      CallStays(w, events, e, i, v.submits[i]);
    }
    forall k | 0 <= k < |v.sent| && v.sent[k].CreateOrder?
      ensures exists i: nat :: Entitled(w, events + [e], i, v.sent[k]) {
      var i: nat :| Entitled(w, events, i, v.sent[k]);
      EntitledStays(w, events, e, i, v.sent[k]);
    }
    if e.SubmitEvent? && e.call < |w.submits| {
      OwnStep(w, events, e.call, e.input);
    } else if !e.SubmitEvent? {
      hide Step;
      OtherSteps(v, e);
      assert forall k :: 0 <= k < |v.sent| ==> u.sent[k] == u.sent[..|v.sent|][k];
    }
  }

  lemma {:induction false} GuardedAlways(w: World, events: seq<Event>)
    requires Beginning(w)
    ensures Guarded(w, events, Run(w, events))
    decreases |events|
  {
    if events != [] {
      var most, last := events[..|events| - 1], events[|events| - 1];
      assert most + [last] == events;
      GuardedAlways(w, most);
      GuardedStep(w, most, last);
    }
    hide Granted;
  }

  /**
   Over every run, each create request that reached the exchange is the one of a call with a clear safety state, the
   authorized intent and an expiry ahead of its clock; and an earlier event of that call found an issued, unexpired
   authorization for this very intent, portfolio and safety state, while nothing was halted and all was compliant.
  */
  lemma {:induction false} SentIsEntitled(w: World, events: seq<Event>, k: nat) returns (i: nat, j: nat)
    requires Beginning(w) && k < |Run(w, events).sent| && Run(w, events).sent[k].CreateOrder?
    ensures i < |w.submits| && j < |events| && events[j].SubmitEvent? && events[j].call == i
    ensures var r, s := Run(w, events).sent[k], w.submits[i];
            && r == CreateOrder(ExecutionId(s.intent, s.mode), s.intent.clientOrderId, s.authorizationId)
            && s.clear && s.intent == s.authorizedIntent && s.now < s.expiresAt
    ensures var s, x, rows := w.submits[i], events[j].input, Run(w, events[..j]).db.authorizations;
            && s.authorizationId in rows
            && rows[s.authorizationId].state == Issued && x.clock < rows[s.authorizationId].expiresAt
            && rows[s.authorizationId].intent == s.intent
            && rows[s.authorizationId].portfolio == s.portfolio && rows[s.authorizationId].safety == s.safety
            && !x.halted && x.compliant && !x.fails
  {
    hide Run;
    GuardedAlways(w, events);
    i :| Entitled(w, events, i, Run(w, events).sent[k]);
    j :| GrantedAt(w, events, i, j);
  }

  /**
   A `submit` call owns a journal row exactly when no statement failed, the safety state was clear, the authorized
   intent was the call's, the authorization had not expired, and nothing of the three identities was journaled; a
   call that is refused changes nothing, and neither kind sends anything yet.
  */
  lemma {:induction false} SubmitRefusedExactly(db: Db, sent: seq<Sent>, s: Submit, x: Input, y: Input)
    requires s.pc.CheckSubmit? && !s.owns
    ensures var (checked, out, t) := SubmitStep(db, sent, s, x);
            var (after, sentAfter, u) := SubmitStep(checked, out, t, y);
            var id := ExecutionId(s.intent, s.mode);
            && (u.owns <==>
                  && !x.fails && !y.fails
                  && s.clear && s.intent == s.authorizedIntent && s.now < s.expiresAt
                  && id !in db.journals
                  && forall e :: e in db.journals ==>
                       && db.journals[e].clientOrderId != s.intent.clientOrderId
                       && db.journals[e].authorizationId != s.authorizationId)
            && (u.owns <==> u.pc == SavePending) && (!u.owns <==> u.pc == SubmitRaised)
            && sentAfter == sent
            && after == (if u.owns
                         then db.(journals := db.journals[id :=
                                Journal(s.intent.clientOrderId, s.authorizationId, JournaledNotSent, false)])
                         else db)
  {
  }

  /**
   Consuming first expires every authorization that is due, and then succeeds exactly for a stored, issued and still
   valid authorization of this intent, portfolio and safety state, unless halted or not compliant.
  */
  lemma {:induction false} ConsumedExactly(db: Db, sent: seq<Sent>, s: Submit, x: Input)
    requires s.pc.ConsumeAuthorization? && !x.fails
    ensures var (after, out, t) := SubmitStep(db, sent, s, x);
            var id := s.authorizationId;
            && (t.pc.MarkStarted? <==>
                  && id in db.authorizations
                  && db.authorizations[id].state == Issued && x.clock < db.authorizations[id].expiresAt
                  && db.authorizations[id].intent == s.intent
                  && db.authorizations[id].portfolio == s.portfolio && db.authorizations[id].safety == s.safety
                  && !x.halted && x.compliant)
            && (!t.pc.MarkStarted? ==> t.pc == MarkUnconsumed)
            && out == sent && after == db.(authorizations := after.authorizations)
            && after.authorizations.Keys == db.authorizations.Keys
            && forall a :: a in db.authorizations ==>
                 after.authorizations[a] == db.authorizations[a].(state :=
                   if a == id && t.pc.MarkStarted? then Consumed
                   else if db.authorizations[a].state == Issued && db.authorizations[a].expiresAt <= x.clock then Expired
                   else db.authorizations[a].state)
  {
  }

  // ----- a mutation request -----

  /** The checks of a `mutate` call, the request it builds included. */
  predicate Fit(m: Mutate, body: Body) {
    m.clear && m.order.exchangeOrderId.Some? && !m.order.reconciliationRequired && AsksFor(m, body)
  }

  predicate Movable(m: Mutate) {
    m.order.state in {Accepted, PartiallyFilled} && m.order.updatedAt <= m.now
  }

  predicate SameMutation(m: Mutate, n: Mutate) {
    n == m.(pc := n.pc, key := n.key)
  }

  ghost predicate Answers(m: Mutate, key: AttemptKey) {
    key == AttemptKey(m.order.executionId, m.kind, key.body) && Fit(m, key.body) && Movable(m)
  }

  ghost predicate MutationGuarded(m: Mutate, n: Mutate) {
    && SameMutation(m, n)
    && (n.pc.AcquireMutation? ==> Fit(m, n.pc.body))
    && (n.pc.SaveMutating? || n.pc.MarkMutationStarted? || n.pc.SendMutation? ==> Answers(m, n.pc.key))
  }

  ghost predicate Requested(w: World, i: nat, e: Sent) {
    i < |w.mutates| && e.Mutation? && Answers(w.mutates[i], e.key)
  }

  ghost predicate MutationsGuarded(w: World, v: World) {
    && |v.mutates| == |w.mutates|
    && (forall i :: 0 <= i < |w.mutates| ==> MutationGuarded(w.mutates[i], v.mutates[i]))
    && (forall k :: 0 <= k < |v.sent| && v.sent[k].Mutation? ==> exists i: nat :: Requested(w, i, v.sent[k]))
  }

  lemma {:induction false} ClassifiedEnds(m: Mutate, key: AttemptKey, pending: LocalOrder, x: Outcome)
    ensures ClassifyMutation(m, key, pending, x).MutateRaised? || ClassifyMutation(m, key, pending, x).AttemptOutcome?
  {
  }

  lemma {:induction false} MutationMove(db: Db, sent: seq<Sent>, m: Mutate, x: Input)
    requires MutationGuarded(m, m)
    ensures var (_, out, n) := MutateStep(db, sent, m, x);
            && MutationGuarded(m, n)
            && (out == sent || (m.pc.SendMutation? && out == sent + [Mutation(m.pc.key)]))
  {
    hide ClassifyMutation, SaveOrder, SetAttempt, RequestBody, AsksFor;
    if m.pc.CheckMutation? && RequestBody(m).Some? {
      RequestExactly(m, RequestBody(m).value);
    } else if m.pc.SendMutation? {
      ClassifiedEnds(m, m.pc.key, m.pc.pending, x.outcome);
    }
  }

  lemma {:induction false} MutationMoves(db: Db, sent: seq<Sent>, m: Mutate, n: Mutate, x: Input)
    requires MutationGuarded(m, n)
    ensures var (_, out, o) := MutateStep(db, sent, n, x);
            && MutationGuarded(m, o)
            && (out == sent || (n.pc.SendMutation? && out == sent + [Mutation(n.pc.key)]))
  {
    hide MutateStep, AsksFor;
    forall body ensures AsksFor(m, body) <==> AsksFor(n, body) {
      SameRequest(m, n, body);
    }
    MutationMove(db, sent, n, x);
    var o := MutateStep(db, sent, n, x).2;
    forall body ensures AsksFor(n, body) <==> AsksFor(o, body) {
      SameRequest(n, o, body);
    }
  }

  lemma {:induction false} SameRequest(m: Mutate, n: Mutate, body: Body)
    requires SameMutation(m, n)
    ensures AsksFor(m, body) <==> AsksFor(n, body)
  {
  }

  lemma {:induction false} MutationsStep(w: World, v: World, e: Event)
    requires MutationsGuarded(w, v)
    ensures MutationsGuarded(w, Step(v, e))
  {
    hide SubmitStep, MutateStep, MutationGuarded, Answers, Recover;
    var u := Step(v, e);
    if e.MutateEvent? && e.call < |v.mutates| {
      MutationMoves(v.db, v.sent, w.mutates[e.call], v.mutates[e.call], e.input);
      if u.sent != v.sent {
        SenderAnswers(w.mutates[e.call], v.mutates[e.call]);
        assert Requested(w, e.call, u.sent[|v.sent|]);
      }
    } else if e.SubmitEvent? && e.call < |v.submits| {
      GuardedMove(v.db, v.sent, v.submits[e.call], e.input);
    }
  }

  lemma {:induction false} SenderAnswers(m: Mutate, n: Mutate)
    requires MutationGuarded(m, n) && n.pc.SendMutation?
    ensures Answers(m, n.pc.key)
  {
  }

  lemma {:induction false} MutationsAlways(w: World, v: World, events: seq<Event>)
    requires MutationsGuarded(w, v)
    ensures MutationsGuarded(w, Run(v, events))
    decreases |events|
  {
    hide Step, MutationsGuarded;
    if events != [] {
      MutationsStep(w, v, events[0]);
      MutationsAlways(w, Step(v, events[0]), events[1..]);
    }
  }

  /**
   Over every run, each mutation that reached the exchange is the one of a call with a clear safety state, on an
   accepted or partially filled order that has an exchange id, needs no reconciliation and is not from the future;
   and it carries the very request the call asked for.
  */
  lemma {:induction false} MutationIsEntitled(w: World, events: seq<Event>, k: nat) returns (i: nat)
    requires Beginning(w) && k < |Run(w, events).sent| && Run(w, events).sent[k].Mutation?
    ensures i < |w.mutates|
    ensures var key, m := Run(w, events).sent[k].key, w.mutates[i];
            && key.executionId == m.order.executionId && key.kind == m.kind && AsksFor(m, key.body)
            && m.clear && m.order.exchangeOrderId.Some? && !m.order.reconciliationRequired
            && m.order.state in {Accepted, PartiallyFilled} && m.order.updatedAt <= m.now
  {
    hide Run;
    MutationsAlways(w, w, events);
    i :| Requested(w, i, Run(w, events).sent[k]);
  }
}
