/**
 The demo execution engine over its two durable stores: any number of `submit` and `mutate` calls
 interleave, one store operation or exchange call a step. Every operation may fail, a call that is never
 scheduled again has crashed, and recovery, halts, expiry and new authorizations happen at any time.
*/
module Engine {
  import opened OrderLifecycle

  // ----- durable state -----

  datatype AuthorizationState = Issued | Consumed | Expired | Revoked

  datatype Authorization = Authorization(
    intent: Intent, portfolio: int, safety: int, expiresAt: int, state: AuthorizationState)

  datatype JournalState =
    | JournaledNotSent
    | AuthorizationNotConsumed
    | SendStarted
    | ProvenUnsent
    | ResponseUnknown
    | ResponsePersisted
    | ResponseRejected
    | RecoveryRequired
    | Reconciled
    | Acknowledged

  datatype Journal = Journal(clientOrderId: string, authorizationId: string, state: JournalState, maybeSent: bool)

  datatype Body = NoBody | ReduceBy(amount: real) | ReduceTo(amount: real) | AmendTo(price: real, count: real, clientOrderId: string)

  /** UNIQUE(execution_id, kind, body_hash). */
  datatype AttemptKey = AttemptKey(executionId: ExecutionId, kind: Kind, body: Body)

  datatype Attempt = Attempt(state: JournalState, maybeSent: bool)

  datatype Db = Db(
    journals: map<ExecutionId, Journal>,
    orders: map<ExecutionId, LocalOrder>,
    attempts: map<AttemptKey, Attempt>,
    authorizations: map<string, Authorization>)

  /** What reached the exchange. */
  datatype Sent =
    | CreateOrder(executionId: ExecutionId, clientOrderId: string, authorizationId: string)
    | Mutation(key: AttemptKey)

  /** `acquire_journal`: insert unless the execution, client order or authorization is already journaled. */
  predicate JournalFree(db: Db, id: ExecutionId, clientOrderId: string, authorizationId: string) {
    && id !in db.journals
    && (forall e :: e in db.journals ==>
          db.journals[e].clientOrderId != clientOrderId && db.journals[e].authorizationId != authorizationId)
  }

  function SetJournal(db: Db, id: ExecutionId, state: JournalState, maybeSent: bool): Db {
    if id !in db.journals then db
    else db.(journals := db.journals[id := db.journals[id].(state := state, maybeSent := maybeSent)])
  }

  function SetAttempt(db: Db, k: AttemptKey, state: JournalState, maybeSent: bool): Db {
    if k !in db.attempts then db else db.(attempts := db.attempts[k := Attempt(state, maybeSent)])
  }

  /** ON CONFLICT DO UPDATE: a stored row keeps its terms, and its exchange id when the order has none. */
  function Upserted(row: LocalOrder, o: LocalOrder): LocalOrder {
    row.(filled := o.filled, fees := o.fees, state := o.state, updatedAt := o.updatedAt,
         exchangeOrderId := if o.exchangeOrderId.Some? then o.exchangeOrderId else row.exchangeOrderId,
         reconciliationRequired := o.reconciliationRequired)
  }

  function SaveOrder(db: Db, o: LocalOrder): Db {
    var id := o.executionId;
    db.(orders := db.orders[id := if id in db.orders then Upserted(db.orders[id], o) else o])
  }

  function ExpireDue(auths: map<string, Authorization>, now: int): map<string, Authorization> {
    map a | a in auths ::
      if auths[a].state == Issued && auths[a].expiresAt <= now then auths[a].(state := Expired) else auths[a]
  }

  /** `incomplete_journals` decides what `recover` takes up. */
  predicate Incomplete(j: Journal) {
    j.state != Reconciled && j.state != ProvenUnsent
  }

  function Recover(db: Db): Db {
    db.(journals := map e | e in db.journals ::
          if Incomplete(db.journals[e]) then db.journals[e].(state := RecoveryRequired) else db.journals[e],
        orders := map e | e in db.orders ::
          if e in db.journals && Incomplete(db.journals[e])
          then db.orders[e].(state := ReconciliationUnknown, reconciliationRequired := true)
          else db.orders[e])
  }

  // ----- environment -----

  /** What the transport does with a request; `Interrupted` is any other exception. */
  datatype Outcome =
    | TimeoutBeforeSend
    | TimeoutAfterSend
    | Interrupted(sent: bool)
    | Response(status: int, orderId: Option<string>, filled: Option<real>, fees: Option<real>)

  predicate ReachesExchange(x: Outcome) {
    match x
    case TimeoutBeforeSend => false
    case TimeoutAfterSend => true
    case Interrupted(sent) => sent
    case Response(_, _, _, _) => true
  }

  datatype Input = Input(fails: bool, clock: int, halted: bool, compliant: bool, outcome: Outcome)

  // ----- submit -----

  datatype SubmitPc =
    | CheckSubmit
    | AcquireJournal
    | SavePending
    | ConsumeAuthorization
    | MarkUnconsumed
    | MarkStarted
    | SendCreate
    | JournalOutcome(state: JournalState, maybeSent: bool, next: Option<LocalOrder>, raises: bool)
    | SaveOutcome(order: LocalOrder, raises: bool)
    | SubmitReturned(order: LocalOrder)
    | SubmitRaised

  /** One `submit` call; `owns` records that it acquired the journal. */
  datatype Submit = Submit(
    mode: Mode, intent: Intent,
    authorizationId: string, authorizedIntent: Intent, expiresAt: int,
    clear: bool, portfolio: int, safety: int, now: int,
    pc: SubmitPc, owns: bool)

  function Id(s: Submit): ExecutionId {
    ExecutionId(s.intent, s.mode)
  }

  function Moved(o: LocalOrder, m: Move): LocalOrder {
    var r := Transition(o, m);
    if r.Ok? then r.value else o
  }

  function PendingOrder(s: Submit): LocalOrder {
    Moved(Moved(NewOrder(s.intent, s.mode, s.now), To(RiskApproved, s.now)), To(SubmissionPending, s.now))
  }

  function Outgoing(s: Submit): Sent {
    CreateOrder(Id(s), s.intent.clientOrderId, s.authorizationId)
  }

  predicate Consumable(s: Submit, a: Authorization, x: Input) {
    && a.state == Issued && a.expiresAt > x.clock && a.intent == s.intent
    && a.portfolio == s.portfolio && a.safety == s.safety && !x.halted && x.compliant
  }

  /** What `submit` makes of the transport's answer. */
  function Classify(s: Submit, x: Outcome): SubmitPc {
    var order := PendingOrder(s);
    match x
    case TimeoutBeforeSend => JournalOutcome(ProvenUnsent, false, None, true)
    case TimeoutAfterSend =>
      JournalOutcome(ResponseUnknown, true, Some(Moved(order, To(ReconciliationUnknown, s.now))), true)
    case Interrupted(_) => SubmitRaised
    case Response(status, orderId, _, _) =>
      if status == 201 && orderId.Some? then
        JournalOutcome(ResponsePersisted, true, Some(Moved(order, Move(Accepted, s.now, None, None, orderId, false))), false)
      else if 400 <= status < 500 && status != 429 then
        JournalOutcome(ResponseRejected, true, Some(Moved(order, To(Rejected, s.now))), false)
      else
        JournalOutcome(ResponseUnknown, true, Some(Moved(order, To(ReconciliationUnknown, s.now))), false)
  }

  function SubmitStep(db: Db, sent: seq<Sent>, s: Submit, x: Input): (Db, seq<Sent>, Submit) {
    var raised := s.(pc := SubmitRaised);
    match s.pc
    case CheckSubmit =>
      if x.fails || s.intent != s.authorizedIntent || !s.clear || s.expiresAt <= s.now then (db, sent, raised)
      else (db, sent, s.(pc := AcquireJournal))
    case AcquireJournal =>
      if x.fails || !JournalFree(db, Id(s), s.intent.clientOrderId, s.authorizationId) then (db, sent, raised)
      else
        (db.(journals := db.journals[Id(s) :=
               Journal(s.intent.clientOrderId, s.authorizationId, JournaledNotSent, false)]),
         sent, s.(pc := SavePending, owns := true))
    case SavePending =>
      if x.fails then (db, sent, raised)
      else (SaveOrder(db, PendingOrder(s)), sent, s.(pc := ConsumeAuthorization))
    case ConsumeAuthorization =>
      if x.fails then (db, sent, raised)
      else
        var auths := ExpireDue(db.authorizations, x.clock);
        if s.authorizationId in auths && Consumable(s, auths[s.authorizationId], x) then
          (db.(authorizations := auths[s.authorizationId := auths[s.authorizationId].(state := Consumed)]),
           sent, s.(pc := MarkStarted))
        else (db.(authorizations := auths), sent, s.(pc := MarkUnconsumed))
    case MarkUnconsumed =>
      (if x.fails then db else SetJournal(db, Id(s), AuthorizationNotConsumed, false), sent, raised)
    case MarkStarted =>
      if x.fails then (db, sent, raised)
      else (SetJournal(db, Id(s), SendStarted, true), sent, s.(pc := SendCreate))
    case SendCreate =>
      (db, if ReachesExchange(x.outcome) then sent + [Outgoing(s)] else sent, s.(pc := Classify(s, x.outcome)))
    case JournalOutcome(state, maybeSent, next, raises) =>
      if x.fails then (db, sent, raised)
      else
        (SetJournal(db, Id(s), state, maybeSent), sent,
         s.(pc := if next.Some? then SaveOutcome(next.value, raises) else SubmitRaised))
    case SaveOutcome(order, raises) =>
      if x.fails then (db, sent, raised)
      else (SaveOrder(db, order), sent, s.(pc := if raises then SubmitRaised else SubmitReturned(order)))
    case SubmitReturned(_) => (db, sent, s)
    case SubmitRaised => (db, sent, s)
  }

  // ----- mutate -----

  datatype MutatePc =
    | CheckMutation
    | AcquireMutation(body: Body)
    | SaveMutating(key: AttemptKey, pending: LocalOrder)
    | MarkMutationStarted(key: AttemptKey, pending: LocalOrder)
    | SendMutation(key: AttemptKey, pending: LocalOrder)
    | AttemptOutcome(key: AttemptKey, state: JournalState, maybeSent: bool, next: Option<LocalOrder>)
    | SaveMutated(key: AttemptKey, order: LocalOrder)
    | MutateReturned(order: LocalOrder)
    | MutateRaised

  /** One `mutate` call on an order value the caller holds; `key` is set once the attempt is journaled. */
  datatype Mutate = Mutate(
    order: LocalOrder, kind: Kind, clear: bool, now: int,
    reduceBy: Option<real>, reduceTo: Option<real>, amend: Option<Body>,
    pc: MutatePc, key: Option<AttemptKey>)

  /** The request body, or None where building it raises. */
  function RequestBody(m: Mutate): Option<Body> {
    match m.kind
    case Create => None
    case Cancel => Some(NoBody)
    case Decrease =>
      if m.reduceBy.Some? == m.reduceTo.Some? then None
      else if m.reduceBy.Some? then
        // `reduce_by or reduce_to` is None for a zero reduction, which cannot be formatted.
        if m.reduceBy.value == 0.0 then None else Some(ReduceBy(m.reduceBy.value))
      else Some(ReduceTo(m.reduceTo.value))
    case Amend => if m.amend.Some? && m.amend.value.AmendTo? then m.amend else None
  }

  function AckOrder(m: Mutate, pending: LocalOrder, x: Outcome): Result<LocalOrder, TransitionError>
    requires x.Response?
  {
    var filled := GetOr(x.filled, m.order.filled);
    Transition(pending, Move(AckTarget(m.order, m.kind, filled), m.now, Some(filled), Some(GetOr(x.fees, m.order.fees)), None, false))
  }

  function ClassifyMutation(m: Mutate, key: AttemptKey, pending: LocalOrder, x: Outcome): MutatePc {
    var unknown := Moved(pending, To(ReconciliationUnknown, m.now));
    match x
    case TimeoutBeforeSend => AttemptOutcome(key, ProvenUnsent, false, None)
    case TimeoutAfterSend => AttemptOutcome(key, ResponseUnknown, true, Some(unknown))
    case Interrupted(_) => MutateRaised
    case Response(status, _, _, _) =>
      if status < 200 || status >= 300 then AttemptOutcome(key, ResponseUnknown, true, Some(unknown))
      else
        var ack := AckOrder(m, pending, x);
        if ack.Err? then MutateRaised else AttemptOutcome(key, Acknowledged, true, Some(ack.value))
  }

  function MutateStep(db: Db, sent: seq<Sent>, m: Mutate, x: Input): (Db, seq<Sent>, Mutate) {
    var raised := m.(pc := MutateRaised);
    match m.pc
    case CheckMutation =>
      if x.fails || !m.clear || m.order.exchangeOrderId.None? || m.order.reconciliationRequired || RequestBody(m).None?
      then (db, sent, raised)
      else (db, sent, m.(pc := AcquireMutation(RequestBody(m).value)))
    case AcquireMutation(body) =>
      var key := AttemptKey(m.order.executionId, m.kind, body);
      if x.fails || key in db.attempts || m.kind == Create then (db, sent, raised)
      else
        var journaled := db.(attempts := db.attempts[key := Attempt(JournaledNotSent, false)]);
        var pending := Transition(m.order, To(PendingState(m.kind), m.now));
        // An order that cannot move to the pending state raises with the attempt already journaled.
        (journaled, sent, m.(key := Some(key), pc := if pending.Ok? then SaveMutating(key, pending.value) else MutateRaised))
    case SaveMutating(key, pending) =>
      if x.fails then (db, sent, raised)
      else (SaveOrder(db, pending), sent, m.(pc := MarkMutationStarted(key, pending)))
    case MarkMutationStarted(key, pending) =>
      if x.fails then (db, sent, raised)
      else (SetAttempt(db, key, SendStarted, true), sent, m.(pc := SendMutation(key, pending)))
    case SendMutation(key, pending) =>
      (db, if ReachesExchange(x.outcome) then sent + [Mutation(key)] else sent,
       m.(pc := ClassifyMutation(m, key, pending, x.outcome)))
    case AttemptOutcome(key, state, maybeSent, next) =>
      if x.fails then (db, sent, raised)
      else
        (SetAttempt(db, key, state, maybeSent), sent,
         m.(pc := if next.Some? then SaveMutated(key, next.value) else MutateRaised))
    case SaveMutated(key, order) =>
      if x.fails then (db, sent, raised) else (SaveOrder(db, order), sent, m.(pc := MutateReturned(order)))
    case MutateReturned(_) => (db, sent, m)
    case MutateRaised => (db, sent, m)
  }

  // ----- whole runs -----

  datatype World = World(db: Db, sent: seq<Sent>, submits: seq<Submit>, mutates: seq<Mutate>)

  datatype Event =
    | SubmitEvent(call: nat, input: Input)
    | MutateEvent(call: nat, input: Input)
    | RecoverAll
    | GlobalHalt
    | Issue(id: string, authorization: Authorization)

  function Step(w: World, e: Event): World {
    match e
    case SubmitEvent(i, x) =>
      if i >= |w.submits| then w
      else
        var (db, sent, s) := SubmitStep(w.db, w.sent, w.submits[i], x);
        w.(db := db, sent := sent, submits := w.submits[i := s])
    case MutateEvent(i, x) =>
      if i >= |w.mutates| then w
      else
        var (db, sent, m) := MutateStep(w.db, w.sent, w.mutates[i], x);
        w.(db := db, sent := sent, mutates := w.mutates[i := m])
    case RecoverAll => w.(db := Recover(w.db))
    case GlobalHalt =>
      w.(db := w.db.(authorizations := map a | a in w.db.authorizations ::
           if w.db.authorizations[a].state == Issued
           then w.db.authorizations[a].(state := Revoked) else w.db.authorizations[a]))
    case Issue(id, a) =>
      if id in w.db.authorizations || a.state != Issued then w
      else w.(db := w.db.(authorizations := w.db.authorizations[id := a]))
  }

  function Run(w: World, events: seq<Event>): World
    decreases |events|
  {
    if events == [] then w else Run(Step(w, events[0]), events[1..])
  }

  /** Empty stores, nothing sent, and calls that have not begun. */
  ghost predicate Beginning(w: World) {
    && w.db == Db(map[], map[], map[], map[]) && w.sent == []
    && (forall i :: 0 <= i < |w.submits| ==> w.submits[i].pc == CheckSubmit && !w.submits[i].owns)
    && (forall i :: 0 <= i < |w.mutates| ==> w.mutates[i].pc == CheckMutation && w.mutates[i].key == None)
  }
}
