/** Outcome-linked evaluation of one research receipt, and the lifecycle-effective choice among attempts. */
module Evaluation {
  import opened Ordering

  datatype Option<+T> = None | Some(value: T)

  datatype Result<+T, +E> = Ok(value: T) | Err(error: E)

  /** Identifiers. A receipt identity is a hash of its source, modelled as an injective constructor. */
  datatype Id = Text(text: string) | ReceiptHash(agent: string, version: string, kind: string, source: Id)

  datatype Eligibility =
    | Eligible
    | OutcomeNotFinal
    | ReconciliationMismatch
    | TargetUnproven
    | TemporalLeakageRisk
    | Unsupported

  datatype Reconciliation = Unreconciled | Matched | Mismatch

  datatype Settlement = Settlement(
    marketTicker: string, rulesVersion: string, semanticSpec: string, result: string, value: real,
    determinedAt: int,
    finalizedAt: Option<int>, recordHash: string, sourceObservation: Option<string>, status: Reconciliation)

  /** The lifecycle identity: everything but the four maturation fields. */
  datatype Track = Track(
    marketTicker: string, rulesVersion: string, semanticSpec: string, result: string, value: real, determinedAt: int)

  function TrackOf(s: Settlement): Track {
    Track(s.marketTicker, s.rulesVersion, s.semanticSpec, s.result, s.value, s.determinedAt)
  }

  datatype Side = Yes | No

  datatype Target = Target(
    marketTicker: string, side: Side, sourceKind: string, sourceId: Id, observedAt: int, version: string)

  function Instrument(t: Target): string {
    t.marketTicker + ":" + (if t.side == Yes then "YES" else "NO")
  }

  datatype Receipt = Receipt(
    id: Id, createdAt: int, agentId: string, agentVersion: string, instrument: string,
    marketPrice: Option<real>, modelProbability: Option<real>, fees: Option<real>, slippage: Option<real>,
    edge: Option<real>, decision: string, evidence: seq<string>)

  /** `evaluation_identity`: a hash over policy, receipt, settlement hash and target. */
  datatype EvaluationId = EvaluationId(policy: string, receipt: Id, settlement: Settlement, target: Target)

  datatype Metrics = Metrics(
    realized: Option<int>, modelBrier: Option<real>, marketBrier: Option<real>, relative: Option<real>, unitValue: Option<real>)

  const NO_METRICS := Metrics(None, None, None, None, None)

  datatype Evaluation = Evaluation(
    id: EvaluationId, policy: string, receiptId: Id, agentId: string, agentVersion: string,
    decision: string, marketFamily: Option<string>, target: Target,
    settlement: Settlement, track: Track, finalizedAt: Option<int>, evaluatedAt: int,
    eligibility: Eligibility, detail: string,
    metrics: Metrics, modelProbability: Option<real>, marketProbability: Option<real>,
    edge: Option<real>, evidence: seq<string>)

  datatype EvaluationError = SourceIsReceipt | WrongInstrument | WrongTicker | InvalidScore

  /** `eligible_training_label`. */
  predicate TrainingLabel(s: Settlement) {
    s.finalizedAt.Some? && s.status == Matched
  }

  /** The eligibility ladder of `evaluate_receipt`, first failure first. */
  function Classify(r: Receipt, s: Settlement, t: Target): (Eligibility, string) {
    if r.agentId != "event-edge" then (Unsupported, "Agent outcome semantics unsupported")
    else if !TrainingLabel(s) then
      if s.finalizedAt.None? then (OutcomeNotFinal, "Settlement is not finalized")
      else (ReconciliationMismatch, if s.status == Unreconciled then "UNRECONCILED" else "MISMATCH")
    else if r.id != ReceiptHash(r.agentId, r.agentVersion, t.sourceKind, t.sourceId) then
      (TargetUnproven, "Target source binding unavailable")
    else if t.observedAt > r.createdAt || r.createdAt >= s.determinedAt then
      (TemporalLeakageRisk, "Decision/source did not precede determination")
    else if (s.result != "YES" && s.result != "NO") || (s.value != 0.0 && s.value != 1.0) then
      (Unsupported, "Authoritative outcome is not simple binary")
    else if !((s.result == "YES" && s.value == 1.0) || (s.result == "NO" && s.value == 0.0)) then
      (Unsupported, "Binary settlement result contradicts settlement value")
    else if r.modelProbability.None? then (TargetUnproven, "Historical target probability unavailable")
    else (Eligible, "")
  }

  function Realized(s: Settlement, t: Target): int {
    if (s.result == "YES") == (t.side == Yes) then 1 else 0
  }

  predicate Scorable(p: Option<real>) {
    p.Some? ==> 0.0 <= p.value <= 1.0
  }

  function Brier(p: real, outcome: int): real {
    (p - outcome as real) * (p - outcome as real)
  }

  function Score(r: Receipt, s: Settlement, t: Target): Metrics
    requires r.modelProbability.Some?
  {
    var outcome := Realized(s, t);
    var model := Brier(r.modelProbability.value, outcome);
    var market := if r.marketPrice.Some? then Some(Brier(r.marketPrice.value, outcome)) else None;
    Metrics(
      Some(outcome), Some(model), market,
      if market.Some? then Some(market.value - model) else None,
      if r.marketPrice.Some? && r.fees.Some? && r.slippage.Some?
      then Some(outcome as real - r.marketPrice.value - r.fees.value - r.slippage.value) else None)
  }

  function Evaluate(r: Receipt, s: Settlement, t: Target, at: int, family: Option<string>, policy: string):
    Result<Evaluation, EvaluationError>
  {
    if t.sourceId == r.id then Err(SourceIsReceipt)
    else if r.instrument != Instrument(t) then Err(WrongInstrument)
    else if s.marketTicker != t.marketTicker then Err(WrongTicker)
    else
      var (eligibility, detail) := Classify(r, s, t);
      if eligibility == Eligible && !(Scorable(r.modelProbability) && Scorable(r.marketPrice)) then Err(InvalidScore)
      else
        Ok(Evaluation(
             EvaluationId(policy, r.id, s, t), policy, r.id, r.agentId, r.agentVersion,
             r.decision, family, t, s, TrackOf(s), s.finalizedAt, at, eligibility, detail,
             if eligibility == Eligible then Score(r, s, t) else NO_METRICS,
             r.modelProbability, r.marketPrice, r.edge, r.evidence))
  }

  /** `evaluation_logical_material`: everything but the processing time. */
  function LogicalMaterial(e: Evaluation): Evaluation {
    e.(evaluatedAt := 0)
  }

  /** What the constructor of a persisted evaluation checks. */
  ghost predicate RowValid(e: Evaluation) {
    && e.id == EvaluationId(e.policy, e.receiptId, e.settlement, e.target)
    && e.track == TrackOf(e.settlement) && e.finalizedAt == e.settlement.finalizedAt
    && (e.eligibility != Eligible ==> e.metrics == NO_METRICS)
    && (e.eligibility == Eligible ==> e.metrics.modelBrier.Some?)
  }

  /** Every evaluation produced is valid, and an eligible one scores a settled, matched, binary outcome. */
  lemma {:induction false} EvaluateValid(r: Receipt, s: Settlement, t: Target, at: int, family: Option<string>, policy: string)
    requires Evaluate(r, s, t, at, family, policy).Ok?
    ensures var e := Evaluate(r, s, t, at, family, policy).value;
            && RowValid(e) && e.policy == policy && e.receiptId == r.id && e.track == TrackOf(s)
            && (e.eligibility == Eligible ==>
                  && TrainingLabel(s) && t.observedAt <= r.createdAt < s.determinedAt
                  && e.metrics.realized == Some(if (s.value == 1.0) == (t.side == Yes) then 1 else 0)
                  && 0.0 <= e.metrics.modelBrier.value <= 1.0)
  {
    var e := Evaluate(r, s, t, at, family, policy).value;
    if e.eligibility == Eligible {
      var p, o := r.modelProbability.value, Realized(s, t);
      BrierInUnit(p, o);
    }
  }

  lemma {:induction false} BrierInUnit(p: real, outcome: int)
    requires 0.0 <= p <= 1.0 && 0 <= outcome <= 1
    ensures 0.0 <= Brier(p, outcome) <= 1.0
  {
    if outcome == 0 {
      assert Brier(p, 0) == p * p;
      assert p * p <= p * 1.0;
    } else {
      var q := 1.0 - p;
      assert Brier(p, 1) == q * q;
      assert q * q <= q * 1.0;
    }
  }

  // ----- the lifecycle-effective attempt -----

  function Rank(e: Eligibility): nat {
    match e
    case Eligible => 6
    case ReconciliationMismatch => 5
    case OutcomeNotFinal => 4
    case TemporalLeakageRisk => 3
    case TargetUnproven => 2
    case Unsupported => 1
  }

  /** `datetime.min` in microseconds, the key of an attempt that is not final. */
  const EARLIEST: int := -62_135_596_800_000_000

  function FinalKey(e: Evaluation): int {
    if e.finalizedAt.Some? then e.finalizedAt.value else EARLIEST
  }

  /** The textual order of evaluation ids and of receipt ids; any total orders. */
  datatype Orders = Orders(idLe: (EvaluationId, EvaluationId) -> bool, receiptLe: (Id, Id) -> bool)

  ghost predicate ValidOrders(o: Orders) {
    TotalOrder(o.idLe) && TotalOrder(o.receiptLe)
  }

  /** The key order of `effective_evaluations`: rank, finalization, evaluation time, identity. */
  predicate KeyLe(o: Orders, a: Evaluation, b: Evaluation) {
    if Rank(a.eligibility) != Rank(b.eligibility) then Rank(a.eligibility) < Rank(b.eligibility)
    else if FinalKey(a) != FinalKey(b) then FinalKey(a) < FinalKey(b)
    else if a.evaluatedAt != b.evaluatedAt then a.evaluatedAt < b.evaluatedAt
    else o.idLe(a.id, b.id)
  }

  lemma {:induction false} KeyLeTotal(o: Orders, a: Evaluation, b: Evaluation, c: Evaluation)
    requires ValidOrders(o)
    ensures KeyLe(o, a, b) || KeyLe(o, b, a)
    ensures KeyLe(o, a, b) && KeyLe(o, b, c) ==> KeyLe(o, a, c)
    ensures KeyLe(o, a, b) && KeyLe(o, b, a) ==> a.id == b.id && a.eligibility == b.eligibility
  {
  }

  predicate Mine(e: Evaluation, receipt: Id, policy: string) {
    e.receiptId == receipt && e.policy == policy
  }

  /** The attempts of one receipt under one policy, in row order. */
  function Attempts(rows: seq<Evaluation>, receipt: Id, policy: string): seq<Evaluation> {
    if rows == [] then []
    else (if Mine(rows[0], receipt, policy) then [rows[0]] else []) + Attempts(rows[1..], receipt, policy)
  }

  lemma {:induction false} AttemptsMembers(rows: seq<Evaluation>, receipt: Id, policy: string)
    ensures forall e :: e in Attempts(rows, receipt, policy) <==> e in rows && Mine(e, receipt, policy)
  {
    if rows != [] {
      AttemptsMembers(rows[1..], receipt, policy);
      assert forall e :: e in rows <==> e == rows[0] || e in rows[1..];
    }
  }

  lemma {:induction false} AttemptsAppend(rows: seq<Evaluation>, more: seq<Evaluation>, receipt: Id, policy: string)
    ensures Attempts(rows + more, receipt, policy) == Attempts(rows, receipt, policy) + Attempts(more, receipt, policy)
  {
    if rows == [] {
      assert rows + more == more;
    } else {
      AttemptsAppend(rows[1..], more, receipt, policy);
      assert (rows + more)[1..] == rows[1..] + more;
      var head := if Mine(rows[0], receipt, policy) then [rows[0]] else [];
      var a, b := Attempts(rows[1..], receipt, policy), Attempts(more, receipt, policy);
      assert head + (a + b) == (head + a) + b;
    }
  }

  /** `max(rows, key=key)`: the first of the greatest. */
  function Greatest(o: Orders, rows: seq<Evaluation>): (best: Evaluation)
    requires rows != []
    ensures best in rows
    decreases |rows|
  {
    var last := rows[|rows| - 1];
    if |rows| == 1 then last
    else
      var prior := Greatest(o, rows[..|rows| - 1]);
      if KeyLe(o, last, prior) then prior else last
  }

  lemma {:induction false} GreatestIsGreatest(o: Orders, rows: seq<Evaluation>)
    requires ValidOrders(o) && rows != []
    ensures forall e :: e in rows ==> KeyLe(o, e, Greatest(o, rows))
    decreases |rows|
  {
    var last, init := rows[|rows| - 1], rows[..|rows| - 1];
    assert rows == init + [last];
    if init != [] {
      GreatestIsGreatest(o, init);
      var best := Greatest(o, rows);
      forall e | e in rows ensures KeyLe(o, e, best) {
        KeyLeTotal(o, e, Greatest(o, init), best);
        KeyLeTotal(o, last, Greatest(o, init), last);
      }
    } else {
      KeyLeTotal(o, last, last, last);
    }
  }

  /** The effective attempt of one receipt, as the store reports it. */
  function Effective(o: Orders, rows: seq<Evaluation>, receipt: Id, policy: string): Option<Evaluation> {
    var mine := Attempts(rows, receipt, policy);
    if mine == [] then None else Some(Greatest(o, mine))
  }

  ghost predicate DistinctIds(rows: seq<Evaluation>) {
    forall i, j :: 0 <= i < j < |rows| ==> rows[i].id != rows[j].id
  }

  ghost predicate IdsDetermineRows(rows: seq<Evaluation>) {
    forall a, b :: a in rows && b in rows && a.id == b.id ==> a == b
  }

  /** The effective attempt does not depend on the order of the rows. */
  lemma {:induction false} EffectiveOrderIndependent(o: Orders, a: seq<Evaluation>, b: seq<Evaluation>, receipt: Id, policy: string)
    requires ValidOrders(o) && IdsDetermineRows(a)
    requires forall e :: e in a <==> e in b
    ensures Effective(o, a, receipt, policy) == Effective(o, b, receipt, policy)
  {
    AttemptsMembers(a, receipt, policy);
    AttemptsMembers(b, receipt, policy);
    var x, y := Attempts(a, receipt, policy), Attempts(b, receipt, policy);
    assert x == [] <==> y == [] by {
      if x != [] {
        assert x[0] in y;
      }
      if y != [] {
        assert y[0] in x;
      }
    }
    if x != [] {
      GreatestIsGreatest(o, x);
      GreatestIsGreatest(o, y);
      KeyLeTotal(o, Greatest(o, x), Greatest(o, y), Greatest(o, x));
    }
  }

  /** One row per receipt, in receipt order: the effective attempts. */
  ghost predicate IsEffectiveList(o: Orders, result: seq<Evaluation>, rows: seq<Evaluation>, policy: string) {
    && (forall e :: e in result <==> e in rows && e.policy == policy && Effective(o, rows, e.receiptId, policy) == Some(e))
    && InReceiptOrder(o, result)
  }

  ghost predicate InReceiptOrder(o: Orders, rows: seq<Evaluation>) {
    forall i, j :: 0 <= i < j < |rows| ==>
      o.receiptLe(rows[i].receiptId, rows[j].receiptId) && rows[i].receiptId != rows[j].receiptId
  }

  lemma {:induction false} EmptyTogether(x: seq<Evaluation>, y: seq<Evaluation>)
    requires forall e :: e in x <==> e in y
    ensures x == [] ==> y == []
  {
    if y != [] {
      assert y[0] in y;
    }
  }

  lemma {:induction false} ReceiptOrderUnique(o: Orders, x: seq<Evaluation>, y: seq<Evaluation>)
    requires TotalOrder(o.receiptLe) && InReceiptOrder(o, x) && InReceiptOrder(o, y)
    requires forall e :: e in x <==> e in y
    ensures x == y
  {
    hide TotalOrder;
    EmptyTogether(x, y);
    EmptyTogether(y, x);
    if x != [] {
      assert x[0] in y;
      assert y[0] in x;
      LeTotal(o.receiptLe, x[0].receiptId, y[0].receiptId);
      assert x[0] == y[0];
      forall e ensures e in x[1..] <==> e in y[1..] {
        assert e in x <==> e == x[0] || e in x[1..];
        assert e in y <==> e == y[0] || e in y[1..];
        assert x[0] !in x[1..] && y[0] !in y[1..];
      }
      ReceiptOrderUnique(o, x[1..], y[1..]);
    }
  }

  /** The whole list does not depend on the order of the rows either. */
  lemma {:induction false} EffectiveListOrderIndependent(
    o: Orders, x: seq<Evaluation>, y: seq<Evaluation>, a: seq<Evaluation>, b: seq<Evaluation>, policy: string)
    requires ValidOrders(o) && IdsDetermineRows(a)
    requires forall e :: e in a <==> e in b
    requires IsEffectiveList(o, x, a, policy) && IsEffectiveList(o, y, b, policy)
    ensures x == y
  {
    hide Effective;
    forall e ensures e in x <==> e in y {
      EffectiveOrderIndependent(o, a, b, e.receiptId, policy);
    }
    ReceiptOrderUnique(o, x, y);
  }

  // ----- `effective_evaluations` as it runs -----

  /** Grouping keeps, per receipt, the attempts in row order. */
  ghost predicate Grouped(groups: map<Id, seq<Evaluation>>, rows: seq<Evaluation>, policy: string) {
    forall r :: (r in groups <==> Attempts(rows, r, policy) != []) &&
                (r in groups ==> groups[r] == Attempts(rows, r, policy))
  }

  method EffectiveEvaluations(o: Orders, rows: seq<Evaluation>, policy: string) returns (result: seq<Evaluation>)
    requires ValidOrders(o)
    ensures IsEffectiveList(o, result, rows, policy)
  {
    var groups: map<Id, seq<Evaluation>> := map[];
    var i := 0;
    while i < |rows|
      invariant 0 <= i <= |rows|
      invariant Grouped(groups, rows[..i], policy)
    {
      var e := rows[i];
      assert rows[..i + 1] == rows[..i] + [e];
      forall r ensures Attempts(rows[..i + 1], r, policy) ==
                       Attempts(rows[..i], r, policy) + (if Mine(e, r, policy) then [e] else []) {
        AttemptsAppend(rows[..i], [e], r, policy);
        assert [e][1..] == [];
      }
      if e.policy == policy {
        groups := groups[e.receiptId := (if e.receiptId in groups then groups[e.receiptId] else []) + [e]];
      }
      i := i + 1;
    }
    assert rows[..i] == rows;
    result := Selected(o, rows, groups, policy);
  }

  method Selected(o: Orders, rows: seq<Evaluation>, groups: map<Id, seq<Evaluation>>, policy: string)
    returns (result: seq<Evaluation>)
    requires ValidOrders(o) && Grouped(groups, rows, policy)
    ensures IsEffectiveList(o, result, rows, policy)
  {
    result := [];
    var todo := groups.Keys;
    ghost var done: set<Id> := {};
    while todo != {}
      invariant done !! todo && done + todo == groups.Keys
      invariant forall e :: e in result <==> e.receiptId in done && Effective(o, rows, e.receiptId, policy) == Some(e)
      invariant forall r, d :: d in done && r in todo ==> o.receiptLe(d, r)
      invariant forall i, j :: 0 <= i < j < |result| ==>
                  o.receiptLe(result[i].receiptId, result[j].receiptId) && result[i].receiptId != result[j].receiptId
      decreases todo
    {
      LeastExists(o.receiptLe, todo);
      var r :| r in todo && forall q :: q in todo ==> o.receiptLe(r, q);
      AttemptsMembers(rows, r, policy);
      assert Effective(o, rows, r, policy) == Some(Greatest(o, groups[r]));
      result := result + [Greatest(o, groups[r])];
      todo, done := todo - {r}, done + {r};
    }
    forall e | e in rows && e.policy == policy ensures e.receiptId in groups {
      AttemptsMembers(rows, e.receiptId, policy);
    }
    forall e | e in result ensures e in rows && e.policy == policy {
      AttemptsMembers(rows, e.receiptId, policy);
    }
  }
}
