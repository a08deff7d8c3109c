/** The order lifecycle of the demo execution domain: a transition table with exact fill accounting. */
module OrderLifecycle {

  datatype Option<+T> = None | Some(value: T)

  datatype Mode = Mock | Paper | Demo

  /** A validated intent; its hash is injective, so the intent stands for its own hash. */
  datatype Intent = Intent(ticker: string, clientOrderId: string, outcomeSide: string, price: real, quantity: real, rest: int)

  /** `stable_hash((intent_hash, mode))` as an injective constructor. */
  datatype ExecutionId = ExecutionId(intent: Intent, mode: Mode)

  datatype OrderState =
    | Proposed
    | RiskApproved
    | SubmissionPending
    | Accepted
    | PartiallyFilled
    | Filled
    | CancellationPending
    | AmendmentPending
    | DecreasePending
    | Canceled
    | Rejected
    | ReconciliationUnknown

  function Successors(s: OrderState): set<OrderState> {
    match s
    case Proposed => {RiskApproved}
    case RiskApproved => {SubmissionPending}
    case SubmissionPending => {Accepted, Rejected, ReconciliationUnknown}
    case Accepted =>
      {PartiallyFilled, Filled, CancellationPending, AmendmentPending, DecreasePending, ReconciliationUnknown}
    case PartiallyFilled =>
      {PartiallyFilled, Filled, CancellationPending, AmendmentPending, DecreasePending, ReconciliationUnknown}
    case CancellationPending => {Canceled, PartiallyFilled, Filled, ReconciliationUnknown}
    case AmendmentPending => {Accepted, PartiallyFilled, Filled, ReconciliationUnknown}
    case DecreasePending => {Accepted, PartiallyFilled, Filled, Canceled, ReconciliationUnknown}
    case ReconciliationUnknown => {Accepted, PartiallyFilled, Filled, Canceled, Rejected}
    case Filled => {}
    case Canceled => {}
    case Rejected => {}
  }

  predicate Terminal(s: OrderState) {
    s in {Filled, Canceled, Rejected}
  }

  datatype LocalOrder = LocalOrder(
    executionId: ExecutionId,
    price: real,
    quantity: real,
    filled: real,
    fees: real,
    state: OrderState,
    updatedAt: int,
    exchangeOrderId: Option<string>,
    reconciliationRequired: bool)

  datatype TransitionError = IllegalMove | FillOutOfRange | IncompleteFill | ImproperPartial | InvalidAccounting

  datatype Result<+T, +E> = Ok(value: T) | Err(error: E)

  /** The arguments of one `transition` call. */
  datatype Move = Move(
    target: OrderState,
    at: int,
    filled: Option<real>,
    fees: Option<real>,
    exchangeOrderId: Option<string>,
    reconciled: bool)

  function To(target: OrderState, at: int): Move {
    Move(target, at, None, None, None, false)
  }

  function GetOr<T>(x: Option<T>, default: T): T {
    if x.Some? then x.value else default
  }

  function Transition(o: LocalOrder, m: Move): Result<LocalOrder, TransitionError> {
    var filled := GetOr(m.filled, o.filled);
    var fees := GetOr(m.fees, o.fees);
    if m.at < o.updatedAt || m.target !in Successors(o.state) then Err(IllegalMove)
    else if filled < o.filled || filled > o.quantity then Err(FillOutOfRange)
    else if m.target == Filled && filled != o.quantity then Err(IncompleteFill)
    else if m.target == PartiallyFilled && !(0.0 < filled < o.quantity) then Err(ImproperPartial)
    // `replace` runs the constructor's checks on the new order.
    else if filled < 0.0 || fees < 0.0 then Err(InvalidAccounting)
    else
      Ok(o.(state := m.target, filled := filled, fees := fees, updatedAt := m.at,
            exchangeOrderId := if m.exchangeOrderId.Some? && m.exchangeOrderId.value != ""
                               then m.exchangeOrderId else o.exchangeOrderId,
            reconciliationRequired := !m.reconciled))
  }

  function NewOrder(intent: Intent, mode: Mode, now: int): LocalOrder {
    LocalOrder(ExecutionId(intent, mode), intent.price, intent.quantity, 0.0, 0.0, Proposed, now, None, true)
  }

  /** Exact accounting, and what the two fill states mean. */
  ghost predicate WellFormed(o: LocalOrder) {
    && 0.0 <= o.filled <= o.quantity && o.fees >= 0.0
    && (o.state == Filled ==> o.filled == o.quantity)
    && (o.state == PartiallyFilled ==> 0.0 < o.filled < o.quantity)
  }

  /** Attempted transitions in order; a refused one raises and leaves the order as it was. */
  function Apply(o: LocalOrder, moves: seq<Move>): LocalOrder
    decreases |moves|
  {
    if moves == [] then o
    else
      var r := Transition(o, moves[0]);
      Apply(if r.Ok? then r.value else o, moves[1..])
  }

  /**
   Over every sequence of attempted transitions accounting stays exact, fills and clock never go back,
   price and quantity never change, and a terminal order never changes at all.
  */
  lemma {:induction false} LifecycleInvariant(o: LocalOrder, moves: seq<Move>)
    requires WellFormed(o)
    ensures var r := Apply(o, moves);
            && WellFormed(r)
            && o.filled <= r.filled && o.updatedAt <= r.updatedAt
            && r.price == o.price && r.quantity == o.quantity && r.executionId == o.executionId
            && (Terminal(o.state) ==> r == o)
    decreases |moves|
  {
    if moves != [] {
      var r := Transition(o, moves[0]);
      LifecycleInvariant(if r.Ok? then r.value else o, moves[1..]);
    }
  }

  /** Exactly when a transition succeeds, and what it changes. */
  lemma {:induction false} TransitionExactly(o: LocalOrder, m: Move)
    ensures var r := Transition(o, m);
            var fill := if m.filled.Some? then m.filled.value else o.filled;
            var fees := if m.fees.Some? then m.fees.value else o.fees;
            && (r.Ok? <==>
                  && m.target in Successors(o.state) && o.updatedAt <= m.at
                  && o.filled <= fill <= o.quantity && 0.0 <= fill && 0.0 <= fees
                  && (m.target == Filled ==> fill == o.quantity)
                  && (m.target == PartiallyFilled ==> 0.0 < fill < o.quantity))
            && (r.Ok? ==>
                  && r.value.executionId == o.executionId && r.value.price == o.price && r.value.quantity == o.quantity
                  && r.value.state == m.target && r.value.updatedAt == m.at && r.value.filled == fill && r.value.fees == fees
                  && (r.value.reconciliationRequired <==> !m.reconciled)
                  && r.value.exchangeOrderId ==
                     (match m.exchangeOrderId case None => o.exchangeOrderId
                                              case Some(id) => if id == "" then o.exchangeOrderId else Some(id)))
  {
  }

  /** Without a reconciled transition an order that needs reconciliation keeps needing it. */
  lemma {:induction false} ReconciliationOnlyByReconciling(o: LocalOrder, moves: seq<Move>)
    requires o.reconciliationRequired
    requires forall i :: 0 <= i < |moves| ==> !moves[i].reconciled
    ensures Apply(o, moves).reconciliationRequired
    decreases |moves|
  {
    if moves != [] {
      var r := Transition(o, moves[0]);
      ReconciliationOnlyByReconciling(if r.Ok? then r.value else o, moves[1..]);
    }
  }

  /** The states from which each state is entered. */
  function Predecessors(s: OrderState): set<OrderState> {
    match s
    case Proposed => {}
    case RiskApproved => {Proposed}
    case SubmissionPending => {RiskApproved}
    case Accepted => {SubmissionPending, AmendmentPending, DecreasePending, ReconciliationUnknown}
    case PartiallyFilled => Live
    case Filled => Live
    case CancellationPending => {Accepted, PartiallyFilled}
    case AmendmentPending => {Accepted, PartiallyFilled}
    case DecreasePending => {Accepted, PartiallyFilled}
    case Canceled => {CancellationPending, DecreasePending, ReconciliationUnknown}
    case Rejected => {SubmissionPending, ReconciliationUnknown}
    case ReconciliationUnknown => {SubmissionPending, Accepted, PartiallyFilled} + Pending
  }

  const Pending: set<OrderState> := {CancellationPending, AmendmentPending, DecreasePending}

  // The states in which an order may still report a fill.
  const Live: set<OrderState> := {Accepted, PartiallyFilled, ReconciliationUnknown} + Pending

  /** The table read backwards: fills are reported only on live orders, and only resting ones can be changed. */
  lemma {:induction false} TableTransposed(s: OrderState, t: OrderState)
    ensures t in Successors(s) <==> s in Predecessors(t)
  {
  }

  /** The table gives no way out of a terminal state, and one out of every other state. */
  lemma {:induction false} TerminalAbsorbs(s: OrderState)
    ensures Terminal(s) <==> Successors(s) == {}
  {
  }

  // ----- mutations -----

  datatype Kind = Create | Cancel | Amend | Decrease

  function PendingState(k: Kind): OrderState
    requires k != Create
  {
    match k
    case Cancel => CancellationPending
    case Amend => AmendmentPending
    case Decrease => DecreasePending
  }

  /** The state `mutate` moves to after an acknowledged mutation that reports `filled`. */
  function AckTarget(o: LocalOrder, k: Kind, filled: real): OrderState {
    if filled == o.quantity then Filled
    else if filled > o.filled then PartiallyFilled
    else if k == Cancel then Canceled
    else Accepted
  }

  /**
   The target `mutate` computes is legal from its pending state exactly when the reported fill lies
   between the old fill and the quantity and the reported fees are not negative.
  */
  lemma {:induction false} AckIsLegalExactly(o: LocalOrder, k: Kind, now: int, filled: real, fees: real)
    requires WellFormed(o) && k != Create
    requires Transition(o, To(PendingState(k), now)).Ok?
    ensures var pending := Transition(o, To(PendingState(k), now)).value;
            var ack := Move(AckTarget(o, k, filled), now, Some(filled), Some(fees), None, false);
            Transition(pending, ack).Ok? <==> o.filled <= filled <= o.quantity && fees >= 0.0
  {
  }

  /** A mutation can only start from an accepted or partially filled order. */
  lemma {:induction false} MutableStates(o: LocalOrder, k: Kind, now: int)
    requires WellFormed(o) && k != Create
    ensures Transition(o, To(PendingState(k), now)).Ok? <==>
              o.state in {Accepted, PartiallyFilled} && now >= o.updatedAt
  {
  }
}
