/** Write-ahead, at-most-once sending over every run of the demo execution engine. */
module EngineSafety {
  import opened OrderLifecycle
  import opened Engine

  // ----- the durable tables -----

  /** UNIQUE(client_order_id) and UNIQUE(authorization_id). */
  ghost predicate JournalsUnique(db: Db) {
    forall a, b :: a in db.journals && b in db.journals && a != b ==>
      && db.journals[a].clientOrderId != db.journals[b].clientOrderId
      && db.journals[a].authorizationId != db.journals[b].authorizationId
  }

  ghost predicate ConsumedIn(db: Db, id: string) {
    id in db.authorizations && db.authorizations[id].state == Consumed
  }

  ghost predicate WasSent(sent: seq<Sent>, id: ExecutionId) {
    exists k :: 0 <= k < |sent| && sent[k].CreateOrder? && sent[k].executionId == id
  }

  ghost predicate WasMutated(sent: seq<Sent>, key: AttemptKey) {
    exists k :: 0 <= k < |sent| && sent[k] == Mutation(key)
  }

  /** What the stores say about one request that reached the exchange. */
  ghost predicate Ahead(db: Db, s: Sent) {
    match s
    case CreateOrder(id, clientOrderId, authorizationId) =>
      && id in db.journals && db.journals[id].maybeSent
      && db.journals[id].clientOrderId == clientOrderId && db.journals[id].authorizationId == authorizationId
      && ConsumedIn(db, authorizationId)
    case Mutation(key) => key in db.attempts && db.attempts[key].maybeSent
  }

  ghost predicate Distinct(sent: seq<Sent>) {
    forall i, j :: 0 <= i < j < |sent| ==>
      match (sent[i], sent[j])
      case (CreateOrder(a, _, _), CreateOrder(b, _, _)) => a != b
      case (Mutation(a), Mutation(b)) => a != b
      case _ => true
  }

  // ----- the calls -----

  predicate BeforeSend(pc: SubmitPc) {
    pc.SavePending? || pc.ConsumeAuthorization? || pc.MarkUnconsumed? || pc.MarkStarted? || pc.SendCreate?
  }

  ghost predicate SubmitInv(db: Db, sent: seq<Sent>, s: Submit) {
    && (s.pc.CheckSubmit? || s.pc.AcquireJournal? ==> !s.owns)
    && (BeforeSend(s.pc) || s.pc.JournalOutcome? || s.pc.SaveOutcome? ==> s.owns)
    && (s.owns ==>
          && Id(s) in db.journals
          && db.journals[Id(s)].clientOrderId == s.intent.clientOrderId
          && db.journals[Id(s)].authorizationId == s.authorizationId)
    && (BeforeSend(s.pc) ==> !WasSent(sent, Id(s)))
    && (s.pc.MarkStarted? || s.pc.SendCreate? ==> ConsumedIn(db, s.authorizationId))
    && (s.pc.SendCreate? ==> db.journals[Id(s)].maybeSent)
    && (s.pc.JournalOutcome? && !s.pc.maybeSent ==> !WasSent(sent, Id(s)))
  }

  predicate MutateBeforeSend(pc: MutatePc) {
    pc.SaveMutating? || pc.MarkMutationStarted? || pc.SendMutation?
  }

  predicate HasKey(pc: MutatePc) {
    MutateBeforeSend(pc) || pc.AttemptOutcome? || pc.SaveMutated?
  }

  ghost predicate MutateInv(db: Db, sent: seq<Sent>, m: Mutate) {
    && (m.pc.CheckMutation? || m.pc.AcquireMutation? ==> m.key == None)
    && (HasKey(m.pc) ==> m.key == Some(m.pc.key))
    && (m.key.Some? ==> m.key.value in db.attempts)
    && (MutateBeforeSend(m.pc) ==> !WasMutated(sent, m.pc.key))
    && (m.pc.SendMutation? ==> db.attempts[m.pc.key].maybeSent)
    && (m.pc.AttemptOutcome? && !m.pc.maybeSent ==> !WasMutated(sent, m.pc.key))
  }

  ghost predicate OneOwner(submits: seq<Submit>) {
    forall i, j :: 0 <= i < j < |submits| && submits[i].owns && submits[j].owns ==> Id(submits[i]) != Id(submits[j])
  }

  ghost predicate OneKeyHolder(mutates: seq<Mutate>) {
    forall i, j :: 0 <= i < j < |mutates| && mutates[i].key.Some? && mutates[j].key.Some? ==>
      mutates[i].key != mutates[j].key
  }

  ghost predicate SentInv(db: Db, sent: seq<Sent>) {
    Distinct(sent) && forall k :: 0 <= k < |sent| ==> Ahead(db, sent[k])
  }

  ghost predicate Inv(w: World) {
    && JournalsUnique(w.db)
    && SentInv(w.db, w.sent)
    && (forall i :: 0 <= i < |w.submits| ==> SubmitInv(w.db, w.sent, w.submits[i]))
    && (forall i :: 0 <= i < |w.mutates| ==> MutateInv(w.db, w.sent, w.mutates[i]))
    && OneOwner(w.submits) && OneKeyHolder(w.mutates)
  }

  // ----- store changes that other calls do not notice -----

  /** Journal rows except `own` only change state; attempts except `key` are kept; consumption is final. */
  ghost predicate Quiet(db: Db, after: Db, own: Option<ExecutionId>, key: Option<AttemptKey>) {
    && (forall e :: e in db.journals ==>
          && e in after.journals
          && after.journals[e].clientOrderId == db.journals[e].clientOrderId
          && after.journals[e].authorizationId == db.journals[e].authorizationId
          && (own != Some(e) ==> after.journals[e].maybeSent == db.journals[e].maybeSent))
    && (forall k :: k in db.attempts ==>
          k in after.attempts && (key != Some(k) ==> after.attempts[k].maybeSent == db.attempts[k].maybeSent))
    && (forall a :: ConsumedIn(db, a) ==> ConsumedIn(after, a))
  }

  lemma {:induction false} QuietSubmit(db: Db, after: Db, sent: seq<Sent>, s: Submit, own: Option<ExecutionId>, key: Option<AttemptKey>)
    requires SubmitInv(db, sent, s) && Quiet(db, after, own, key)
    requires s.owns ==> own != Some(Id(s))
    ensures SubmitInv(after, sent, s)
  {
  }

  lemma {:induction false} QuietMutate(db: Db, after: Db, sent: seq<Sent>, m: Mutate, own: Option<ExecutionId>, key: Option<AttemptKey>)
    requires MutateInv(db, sent, m) && Quiet(db, after, own, key)
    requires m.key.Some? ==> key != m.key
    ensures MutateInv(after, sent, m)
  {
  }

  /** A request appended by a call is not one another call is still waiting to send. */
  lemma {:induction false} AppendSubmit(db: Db, sent: seq<Sent>, s: Submit, e: Sent)
    requires SubmitInv(db, sent, s)
    requires e.CreateOrder? && s.owns ==> e.executionId != Id(s)
    ensures SubmitInv(db, sent + [e], s)
  {
  }

  lemma {:induction false} AppendMutate(db: Db, sent: seq<Sent>, m: Mutate, e: Sent)
    requires MutateInv(db, sent, m)
    requires e.Mutation? && m.key.Some? ==> e.key != m.key.value
    ensures MutateInv(db, sent + [e], m)
  {
  }

  lemma {:induction false} SentKept(db: Db, after: Db, sent: seq<Sent>, own: Option<ExecutionId>, key: Option<AttemptKey>)
    requires SentInv(db, sent) && Quiet(db, after, own, key)
    requires own.Some? && own.value in after.journals && !after.journals[own.value].maybeSent ==> !WasSent(sent, own.value)
    requires key.Some? && key.value in after.attempts && !after.attempts[key.value].maybeSent ==> !WasMutated(sent, key.value)
    ensures SentInv(after, sent)
  {
  }

  lemma {:induction false} SentGrows(db: Db, sent: seq<Sent>, e: Sent)
    requires SentInv(db, sent) && Ahead(db, e)
    requires e.CreateOrder? ==> !WasSent(sent, e.executionId)
    requires e.Mutation? ==> !WasMutated(sent, e.key)
    ensures SentInv(db, sent + [e])
  {
  }

  // ----- one step of a submit call -----

  function OwnRow(s: Submit): Option<ExecutionId> {
    if s.owns then Some(Id(s)) else None
  }

  lemma {:induction false} RowUpdatedUnique(db: Db, id: ExecutionId, state: JournalState, maybeSent: bool)
    requires JournalsUnique(db)
    ensures JournalsUnique(SetJournal(db, id, state, maybeSent))
  {
  }

  /** A row update keeps everything but its own flag. */
  lemma {:induction false} RowUpdated(db: Db, id: ExecutionId, state: JournalState, maybeSent: bool)
    ensures Quiet(db, SetJournal(db, id, state, maybeSent), Some(id), None)
    ensures JournalsUnique(db) ==> JournalsUnique(SetJournal(db, id, state, maybeSent))
  {
    hide JournalsUnique;
    if JournalsUnique(db) {
      RowUpdatedUnique(db, id, state, maybeSent);
    }
  }

  lemma {:induction false} RowAdded(db: Db, id: ExecutionId, row: Journal)
    requires JournalFree(db, id, row.clientOrderId, row.authorizationId)
    ensures var after := db.(journals := db.journals[id := row]);
            Quiet(db, after, None, None) && (JournalsUnique(db) ==> JournalsUnique(after))
  {
  }

  lemma {:induction false} OrderSaved(db: Db, o: LocalOrder, own: Option<ExecutionId>, key: Option<AttemptKey>)
    ensures Quiet(db, SaveOrder(db, o), own, key) && Quiet(db, db, own, key)
    ensures JournalsUnique(db) ==> JournalsUnique(SaveOrder(db, o))
  {
  }

  lemma {:induction false} AuthorizationConsumed(db: Db, s: Submit, x: Input, own: Option<ExecutionId>)
    requires s.pc.ConsumeAuthorization?
    ensures var after := SubmitStep(db, [], s, x).0;
            Quiet(db, after, own, None) && (JournalsUnique(db) ==> JournalsUnique(after))
  {
  }

  lemma {:induction false} WiderQuiet(db: Db, after: Db, own: Option<ExecutionId>)
    requires Quiet(db, after, None, None)
    ensures Quiet(db, after, own, None)
  {
  }

  lemma {:induction false} DbIgnoresSent(db: Db, sent: seq<Sent>, s: Submit, x: Input)
    ensures SubmitStep(db, sent, s, x).0 == SubmitStep(db, [], s, x).0
  {
    hide Classify, PendingOrder, ExpireDue, Consumable, SaveOrder, SetJournal, JournalFree;
  }

  lemma {:induction false} SubmitStepQuiet(db: Db, sent: seq<Sent>, s: Submit, x: Input)
    requires SubmitInv(db, sent, s)
    ensures var after := SubmitStep(db, sent, s, x).0;
            Quiet(db, after, OwnRow(s), None) && (JournalsUnique(db) ==> JournalsUnique(after))
  {
    hide Quiet, JournalsUnique, Classify, PendingOrder, ExpireDue, Consumable, SaveOrder, SetJournal, WasSent, ConsumedIn;
    OrderSaved(db, PendingOrder(s), OwnRow(s), None);
    match s.pc {
      case AcquireJournal =>
        var row := Journal(s.intent.clientOrderId, s.authorizationId, JournaledNotSent, false);
        if JournalFree(db, Id(s), row.clientOrderId, row.authorizationId) {
          RowAdded(db, Id(s), row);
          WiderQuiet(db, db.(journals := db.journals[Id(s) := row]), OwnRow(s));
        }
      case ConsumeAuthorization =>
        DbIgnoresSent(db, sent, s, x);
        AuthorizationConsumed(db, s, x, OwnRow(s));
        hide SubmitStep;
      case MarkUnconsumed => RowUpdated(db, Id(s), AuthorizationNotConsumed, false);
      case MarkStarted => RowUpdated(db, Id(s), SendStarted, true);
      case JournalOutcome(state, maybeSent, _, _) => RowUpdated(db, Id(s), state, maybeSent);
      case SaveOutcome(order, _) => OrderSaved(db, order, OwnRow(s), None);
      case _ =>
    }
  }

  lemma {:induction false} SubmitStepFlag(db: Db, sent: seq<Sent>, s: Submit, x: Input)
    requires SubmitInv(db, sent, s) && s.owns
    ensures var after := SubmitStep(db, sent, s, x).0;
            Id(s) in after.journals && (!after.journals[Id(s)].maybeSent ==> !db.journals[Id(s)].maybeSent || !WasSent(sent, Id(s)))
  {
    hide Classify, PendingOrder, ExpireDue, Consumable;
  }

  lemma {:induction false} SubmitStepSent(db: Db, sent: seq<Sent>, s: Submit, x: Input)
    ensures var (after, out, t) := SubmitStep(db, sent, s, x);
            && Id(t) == Id(s) && (t.owns ==> s.owns || Id(s) !in db.journals)
            && (out == sent || (out == sent + [Outgoing(s)] && s.pc.SendCreate? && after == db))
  {
    hide Classify, PendingOrder, ExpireDue, Consumable;
  }

  lemma {:induction false} SubmitStepCall(db: Db, sent: seq<Sent>, s: Submit, x: Input)
    requires SentInv(db, sent) && SubmitInv(db, sent, s)
    ensures var (after, out, t) := SubmitStep(db, sent, s, x); SubmitInv(after, out, t)
  {
    if s.pc.AcquireJournal? {
      hide Classify, PendingOrder, ExpireDue, Consumable, SaveOrder;
      if Id(s) !in db.journals {
        UnjournaledUnsent(db, sent, Id(s));
      }
    } else if s.pc.SendCreate? {
      hide PendingOrder, ExpireDue, Consumable, SentInv;
    } else {
      hide Classify, PendingOrder, ExpireDue, SentInv, Consumable;
    }
  }

  lemma {:induction false} UnjournaledUnsent(db: Db, sent: seq<Sent>, id: ExecutionId)
    requires SentInv(db, sent) && (id !in db.journals || !db.journals[id].maybeSent)
    ensures !WasSent(sent, id)
  {
  }

  lemma {:induction false} SubmitEventInv(w: World, i: nat, x: Input)
    requires Inv(w) && i < |w.submits|
    ensures Inv(Step(w, SubmitEvent(i, x)))
  {
    hide SubmitStep, SubmitInv, MutateInv, JournalsUnique, Quiet, SentInv;
    var s := w.submits[i];
    var (after, out, t) := SubmitStep(w.db, w.sent, s, x);
    SubmitStepQuiet(w.db, w.sent, s, x);
    SubmitStepSent(w.db, w.sent, s, x);
    SubmitStepCall(w.db, w.sent, s, x);
    SubmitSentInv(w, i, x);
    forall j | 0 <= j < |w.submits| && j != i ensures SubmitInv(after, out, w.submits[j]) {
      OwnersDiffer(w, i, j);
      QuietSubmit(w.db, after, w.sent, w.submits[j], OwnRow(s), None);
      if out != w.sent {
        SenderOwns(w.db, w.sent, s);
        AppendSubmit(after, w.sent, w.submits[j], Outgoing(s));
      }
    }
    forall j | 0 <= j < |w.mutates| ensures MutateInv(after, out, w.mutates[j]) {
      QuietMutate(w.db, after, w.sent, w.mutates[j], OwnRow(s), None);
      if out != w.sent {
        AppendMutate(after, w.sent, w.mutates[j], Outgoing(s));
      }
    }
    NewOwner(w, i, t);
  }

  lemma {:induction false} SenderOwns(db: Db, sent: seq<Sent>, s: Submit)
    requires SubmitInv(db, sent, s) && s.pc.SendCreate?
    ensures s.owns && Ahead(db, Outgoing(s)) && !WasSent(sent, Id(s))
  {
  }

  lemma {:induction false} OwnersDiffer(w: World, i: nat, j: nat)
    requires OneOwner(w.submits) && i < |w.submits| && j < |w.submits| && i != j
    ensures w.submits[i].owns && w.submits[j].owns ==> Id(w.submits[i]) != Id(w.submits[j])
  {
  }

  lemma {:induction false} NewOwner(w: World, i: nat, t: Submit)
    requires Inv(w) && i < |w.submits| && Id(t) == Id(w.submits[i])
    requires t.owns ==> w.submits[i].owns || Id(w.submits[i]) !in w.db.journals
    ensures OneOwner(w.submits[i := t])
  {
  }

  lemma {:induction false} SubmitSentInv(w: World, i: nat, x: Input)
    requires Inv(w) && i < |w.submits|
    ensures var (after, out, _) := SubmitStep(w.db, w.sent, w.submits[i], x); SentInv(after, out)
  {
    hide SubmitStep, SubmitInv, MutateInv, JournalsUnique, Quiet, SentInv;
    var s := w.submits[i];
    var (after, out, t) := SubmitStep(w.db, w.sent, s, x);
    SubmitStepQuiet(w.db, w.sent, s, x);
    SubmitStepSent(w.db, w.sent, s, x);
    if out == w.sent {
      if s.owns {
        SubmitStepFlag(w.db, w.sent, s, x);
        if Id(s) !in w.db.journals || !w.db.journals[Id(s)].maybeSent {
          UnjournaledUnsent(w.db, w.sent, Id(s));
        }
      }
      SentKept(w.db, after, w.sent, OwnRow(s), None);
    } else {
      SenderOwns(w.db, w.sent, s);
      SentGrows(w.db, w.sent, Outgoing(s));
    }
  }

  // ----- one step of a mutate call -----

  lemma {:induction false} AttemptUpdated(db: Db, key: AttemptKey, row: Attempt, own: Option<AttemptKey>)
    requires key !in db.attempts || own == Some(key)
    ensures var after := db.(attempts := db.attempts[key := row]);
            Quiet(db, after, None, own) && (JournalsUnique(db) ==> JournalsUnique(after))
  {
  }

  lemma {:induction false} MutateStepDb(db: Db, sent: seq<Sent>, m: Mutate, x: Input)
    requires MutateInv(db, sent, m)
    ensures var after := MutateStep(db, sent, m, x).0;
            Quiet(db, after, None, m.key) && (JournalsUnique(db) ==> JournalsUnique(after))
  {
    hide Quiet, JournalsUnique, ClassifyMutation, Transition, RequestBody, PendingState, WasMutated, SaveOrder;
    OrderSaved(db, m.order, None, m.key);
    match m.pc {
      case AcquireMutation(body) =>
        var key := AttemptKey(m.order.executionId, m.kind, body);
        if key !in db.attempts {
          AttemptUpdated(db, key, Attempt(JournaledNotSent, false), m.key);
        }
      case SaveMutating(_, pending) => OrderSaved(db, pending, None, m.key);
      case MarkMutationStarted(key, _) => AttemptUpdated(db, key, Attempt(SendStarted, true), m.key);
      case AttemptOutcome(key, state, maybeSent, _) => AttemptUpdated(db, key, Attempt(state, maybeSent), m.key);
      case SaveMutated(_, order) => OrderSaved(db, order, None, m.key);
      case _ =>
    }
  }

  lemma {:induction false} MutateStepFlag(db: Db, sent: seq<Sent>, m: Mutate, x: Input)
    requires MutateInv(db, sent, m) && m.key.Some?
    ensures var after := MutateStep(db, sent, m, x).0;
            m.key.value in db.attempts && m.key.value in after.attempts &&
            (!after.attempts[m.key.value].maybeSent ==> !db.attempts[m.key.value].maybeSent || !WasMutated(sent, m.key.value))
  {
    hide ClassifyMutation, Transition, RequestBody, PendingState;
  }

  lemma {:induction false} MutateStepCall(db: Db, sent: seq<Sent>, m: Mutate, x: Input)
    requires SentInv(db, sent) && MutateInv(db, sent, m)
    ensures var (after, out, t) := MutateStep(db, sent, m, x);
            && MutateInv(after, out, t)
            && (t.key == m.key || (m.key == None && t.key.Some? && t.key.value !in db.attempts))
            && (out == sent || (m.pc.SendMutation? && out == sent + [Mutation(m.pc.key)] && after == db))
  {
    hide Transition, RequestBody, AckOrder, Moved, PendingState;
    if m.pc.AcquireMutation? {
      var key := AttemptKey(m.order.executionId, m.kind, m.pc.body);
      if k :| 0 <= k < |sent| && sent[k] == Mutation(key) {
        assert Ahead(db, sent[k]);
      }
    }
  }

  lemma {:induction false} MutateSentInv(w: World, i: nat, x: Input)
    requires Inv(w) && i < |w.mutates|
    ensures var (after, out, _) := MutateStep(w.db, w.sent, w.mutates[i], x); SentInv(after, out)
  {
    hide MutateStep, SubmitInv, MutateInv, JournalsUnique, Quiet, SentInv;
    var m := w.mutates[i];
    var (after, out, t) := MutateStep(w.db, w.sent, m, x);
    MutateStepDb(w.db, w.sent, m, x);
    MutateStepCall(w.db, w.sent, m, x);
    if out == w.sent {
      if m.key.Some? {
        MutateStepFlag(w.db, w.sent, m, x);
        if !w.db.attempts[m.key.value].maybeSent {
          UnsentUnflagged(w.db, w.sent, m.key.value);
        }
      }
      SentKept(w.db, after, w.sent, None, m.key);
    } else {
      MutatorHolds(w.db, w.sent, m);
      SentGrows(w.db, w.sent, Mutation(m.pc.key));
    }
  }

  lemma {:induction false} UnsentUnflagged(db: Db, sent: seq<Sent>, key: AttemptKey)
    requires SentInv(db, sent) && key in db.attempts && !db.attempts[key].maybeSent
    ensures !WasMutated(sent, key)
  {
  }

  lemma {:induction false} MutatorHolds(db: Db, sent: seq<Sent>, m: Mutate)
    requires MutateInv(db, sent, m) && m.pc.SendMutation?
    ensures m.key == Some(m.pc.key) && Ahead(db, Mutation(m.pc.key)) && !WasMutated(sent, m.pc.key)
  {
  }

  lemma {:induction false} NewKeyHolder(w: World, i: nat, t: Mutate)
    requires Inv(w) && i < |w.mutates|
    requires t.key == w.mutates[i].key || (t.key.Some? && t.key.value !in w.db.attempts)
    ensures OneKeyHolder(w.mutates[i := t])
  {
  }

  lemma {:induction false} MutateEventInv(w: World, i: nat, x: Input)
    requires Inv(w) && i < |w.mutates|
    ensures Inv(Step(w, MutateEvent(i, x)))
  {
    hide MutateStep, SubmitInv, MutateInv, JournalsUnique, Quiet, SentInv;
    var m := w.mutates[i];
    var (after, out, t) := MutateStep(w.db, w.sent, m, x);
    MutateStepDb(w.db, w.sent, m, x);
    MutateStepCall(w.db, w.sent, m, x);
    MutateSentInv(w, i, x);
    forall j | 0 <= j < |w.mutates| && j != i ensures MutateInv(after, out, w.mutates[j]) {
      QuietMutate(w.db, after, w.sent, w.mutates[j], None, m.key);
      if out != w.sent {
        MutatorHolds(w.db, w.sent, m);
        AppendMutate(after, w.sent, w.mutates[j], Mutation(m.pc.key));
      }
    }
    forall j | 0 <= j < |w.submits| ensures SubmitInv(after, out, w.submits[j]) {
      QuietSubmit(w.db, after, w.sent, w.submits[j], None, m.key);
      if out != w.sent {
        AppendSubmit(after, w.sent, w.submits[j], Mutation(m.pc.key));
      }
    }
    NewKeyHolder(w, i, t);
  }

  // ----- environment -----

  lemma {:induction false} EnvironmentQuiet(w: World, e: Event)
    requires JournalsUnique(w.db) && !e.SubmitEvent? && !e.MutateEvent?
    ensures var v := Step(w, e);
            && JournalsUnique(v.db) && Quiet(w.db, v.db, None, None)
            && v.sent == w.sent && v.submits == w.submits && v.mutates == w.mutates
  {
  }

  lemma {:induction false} StepInv(w: World, e: Event)
    requires Inv(w)
    ensures Inv(Step(w, e))
  {
    hide SubmitStep, MutateStep, SubmitInv, MutateInv, JournalsUnique, Quiet, SentInv, Recover;
    if e.SubmitEvent? {
      if e.call < |w.submits| {
        SubmitEventInv(w, e.call, e.input);
      }
    } else if e.MutateEvent? {
      if e.call < |w.mutates| {
        MutateEventInv(w, e.call, e.input);
      }
    } else {
      EnvironmentQuiet(w, e);
      var v := Step(w, e);
      SentKept(w.db, v.db, w.sent, None, None);
      forall j | 0 <= j < |w.submits| ensures SubmitInv(v.db, v.sent, v.submits[j]) {
        QuietSubmit(w.db, v.db, w.sent, w.submits[j], None, None);
      }
      forall j | 0 <= j < |w.mutates| ensures MutateInv(v.db, v.sent, v.mutates[j]) {
        QuietMutate(w.db, v.db, w.sent, w.mutates[j], None, None);
      }
    }
  }

  lemma {:induction false} RunInv(w: World, events: seq<Event>)
    requires Inv(w)
    ensures Inv(Run(w, events))
    decreases |events|
  {
    hide Inv, Step;
    if events != [] {
      StepInv(w, events[0]);
      RunInv(Step(w, events[0]), events[1..]);
    }
  }

  // ----- what every run guarantees -----

  /**
   Write-ahead: at every moment of every run, each create request that reached the exchange is journaled
   as possibly sent under its own identities and its authorization is consumed; each mutation that
   reached it is journaled as possibly sent.
  */
  lemma {:induction false} SentIsJournaled(w: World, events: seq<Event>, k: nat)
    requires Beginning(w) && k < |Run(w, events).sent|
    ensures Ahead(Run(w, events).db, Run(w, events).sent[k])
  {
    RunInv(w, events);
    hide Run, SubmitInv, MutateInv;
  }

  /** At most once: no two requests share an execution, a client order, an authorization or an attempt. */
  lemma {:induction false} SentAtMostOnce(w: World, events: seq<Event>, i: nat, j: nat)
    requires Beginning(w) && i < j < |Run(w, events).sent|
    ensures var s := Run(w, events).sent;
            && (s[i].CreateOrder? && s[j].CreateOrder? ==>
                  && s[i].executionId != s[j].executionId
                  && s[i].clientOrderId != s[j].clientOrderId
                  && s[i].authorizationId != s[j].authorizationId)
            && (s[i].Mutation? && s[j].Mutation? ==> s[i].key != s[j].key)
  {
    RunInv(w, events);
    var v := Run(w, events);
    assert Ahead(v.db, v.sent[i]) && Ahead(v.db, v.sent[j]);
    hide Run;
  }

  /** A journal row saying "not possibly sent" is the truth. */
  lemma {:induction false} UnsentIsTrue(w: World, events: seq<Event>, id: ExecutionId)
    requires Beginning(w)
    requires id !in Run(w, events).db.journals || !Run(w, events).db.journals[id].maybeSent
    ensures !WasSent(Run(w, events).sent, id)
  {
    hide Run;
    RunInv(w, events);
    UnjournaledUnsent(Run(w, events).db, Run(w, events).sent, id);
  }

  // ----- what the outcomes mean -----

  /**
   What `submit` makes of every answer: it returns an order exactly for a response and raises otherwise,
   persists nothing more exactly on an interruption, and saves the order the answer calls for.
  */
  lemma {:induction false} SubmitOutcomes(s: Submit, x: Outcome)
    requires s.intent.quantity > 0.0
    ensures PendingOrder(s).state == SubmissionPending && WellFormed(PendingOrder(s))
    ensures var pc := Classify(s, x);
            && (pc.SubmitRaised? <==> x.Interrupted?)
            && (!x.Interrupted? ==>
                  && pc.JournalOutcome?
                  && (pc.raises <==> !x.Response?)
                  && (pc.maybeSent <==> ReachesExchange(x))
                  && (pc.next.None? <==> x == TimeoutBeforeSend)
                  && (pc.state == ProvenUnsent <==> x == TimeoutBeforeSend)
                  && (pc.next.Some? ==> SubmitSaves(s, x, pc.state, pc.next.value)))
  {
  }

  ghost predicate SubmitSaves(s: Submit, x: Outcome, recorded: JournalState, o: LocalOrder) {
    var accepted := x.Response? && x.status == 201 && x.orderId.Some?;
    var rejected := x.Response? && 400 <= x.status < 500 && x.status != 429;
    && WellFormed(o) && o.reconciliationRequired && o.updatedAt == s.now
    && o.executionId == ExecutionId(s.intent, s.mode) && o.price == s.intent.price && o.quantity == s.intent.quantity
    && o.filled == 0.0 && o.fees == 0.0
    && o.exchangeOrderId == (if accepted && x.orderId != Some("") then x.orderId else None)
    && (o.state == Accepted <==> accepted) && (recorded == ResponsePersisted <==> accepted)
    && (o.state == Rejected <==> rejected) && (recorded == ResponseRejected <==> rejected)
    && (o.state == ReconciliationUnknown <==> !accepted && !rejected)
    && (recorded == ResponseUnknown <==> !accepted && !rejected)
  }

  /** An acknowledgement that reports a fill outside [old fill, quantity] or negative fees. */
  predicate IllegalReport(m: Mutate, x: Outcome) {
    && x.Response? && 200 <= x.status < 300
    && !(m.order.filled <= GetOr(x.filled, m.order.filled) <= m.order.quantity && GetOr(x.fees, m.order.fees) >= 0.0)
  }

  /**
   What `mutate` makes of every answer. It raises exactly on an interruption, an illegal report or a proven
   unsent request, in the last case after recording that; otherwise it returns a valid order that must be
   reconciled before the next mutation and whose fill and clock did not go back.
  */
  lemma {:induction false} MutateOutcomes(m: Mutate, key: AttemptKey, x: Outcome)
    requires WellFormed(m.order) && m.kind != Create
    requires Transition(m.order, To(PendingState(m.kind), m.now)).Ok?
    ensures var pending := Transition(m.order, To(PendingState(m.kind), m.now)).value;
            var pc := ClassifyMutation(m, key, pending, x);
            && pending == m.order.(updatedAt := m.now, reconciliationRequired := true,
                                   state := match m.kind case Cancel => CancellationPending case Amend => AmendmentPending
                                                         case _ => DecreasePending)
            && (pc.MutateRaised? <==> x.Interrupted? || IllegalReport(m, x))
            && (!pc.MutateRaised? ==>
                  && pc.AttemptOutcome? && pc.key == key
                  && (pc.maybeSent <==> ReachesExchange(x))
                  && (pc.next.None? <==> x == TimeoutBeforeSend)
                  && (pc.state == ProvenUnsent <==> x == TimeoutBeforeSend)
                  && (pc.next.Some? ==> MutateSaves(m, x, pc.state, pc.next.value)))
  {
  }

  /** An acknowledged mutation takes the order where its fill and kind say; any other answer leaves it unknown. */
  ghost predicate MutateSaves(m: Mutate, x: Outcome, recorded: JournalState, o: LocalOrder) {
    var acknowledged := x.Response? && 200 <= x.status < 300;
    var had, quantity := m.order.filled, m.order.quantity;
    var fill := if acknowledged then GetOr(x.filled, had) else had;
    && WellFormed(o) && o.reconciliationRequired
    && o.updatedAt == m.now >= m.order.updatedAt
    && o.executionId == m.order.executionId && o.price == m.order.price && o.quantity == quantity
    && o.exchangeOrderId == m.order.exchangeOrderId
    && o.filled == fill >= had && o.fees == (if acknowledged then GetOr(x.fees, m.order.fees) else m.order.fees)
    && (o.state == Filled <==> acknowledged && fill == quantity)
    && (o.state == PartiallyFilled <==> acknowledged && had < fill < quantity)
    && (o.state == Canceled <==> acknowledged && fill == had < quantity && m.kind == Cancel)
    && (o.state == Accepted <==> acknowledged && fill == had < quantity && (m.kind == Amend || m.kind == Decrease))
    && (o.state == ReconciliationUnknown <==> !acknowledged)
    && (recorded == Acknowledged <==> acknowledged) && (recorded == ResponseUnknown <==> !acknowledged)
  }
}
