/** What an evaluation says, field by field of its inputs: when it is refused, its eligibility, and its scores. */
module EvaluationRules {
  import opened Evaluation

  /** A final, matched settlement. */
  predicate Settled(s: Settlement) {
    s.finalizedAt.Some? && s.status == Matched
  }

  /** The receipt's identity is the one its target's source gives. */
  predicate Bound(r: Receipt, t: Target) {
    r.id == ReceiptHash(r.agentId, r.agentVersion, t.sourceKind, t.sourceId)
  }

  predicate InTime(r: Receipt, s: Settlement, t: Target) {
    t.observedAt <= r.createdAt < s.determinedAt
  }

  predicate Binary(s: Settlement) {
    (s.result == "YES" && s.value == 1.0) || (s.result == "NO" && s.value == 0.0)
  }

  /** Everything an eligible attempt needs. */
  predicate Entitled(r: Receipt, s: Settlement, t: Target) {
    && r.agentId == "event-edge" && Settled(s) && Bound(r, t) && InTime(r, s, t) && Binary(s)
    && r.modelProbability.Some?
  }

  predicate Fits(r: Receipt, s: Settlement, t: Target) {
    && t.sourceId != r.id && s.marketTicker == t.marketTicker
    && r.instrument == t.marketTicker + (match t.side case Yes => ":YES" case No => ":NO")
  }

  predicate Probability(p: Option<real>) {
    p == None || 0.0 <= p.value <= 1.0
  }

  /** Evaluation is refused exactly for a source that is the receipt, a foreign instrument or ticker, or an improper score. */
  lemma {:induction false} RefusedExactly(r: Receipt, s: Settlement, t: Target, at: int, family: Option<string>, policy: string)
    ensures var e := Evaluate(r, s, t, at, family, policy);
            && (e.Ok? <==> Fits(r, s, t) && (Entitled(r, s, t) ==> Probability(r.modelProbability) && Probability(r.marketPrice)))
            && (e == Err(SourceIsReceipt) <==> t.sourceId == r.id)
            && (e == Err(WrongInstrument) <==>
                  && t.sourceId != r.id
                  && r.instrument != t.marketTicker + (match t.side case Yes => ":YES" case No => ":NO"))
            && (e == Err(InvalidScore) <==>
                  && Fits(r, s, t) && Entitled(r, s, t)
                  && !(Probability(r.modelProbability) && Probability(r.marketPrice)))
            && (e == Err(WrongTicker) <==>
                  && t.sourceId != r.id && s.marketTicker != t.marketTicker
                  && r.instrument == t.marketTicker + (match t.side case Yes => ":YES" case No => ":NO"))
  {
    hide Score, TrackOf;
    assert ":" + "YES" == ":YES" && ":" + "NO" == ":NO";
    assert t.marketTicker + ":" + "YES" == t.marketTicker + ":YES";
    assert t.marketTicker + ":" + "NO" == t.marketTicker + ":NO";
  }

  /** The exact condition of each eligibility. */
  lemma {:induction false} EligibilityExactly(r: Receipt, s: Settlement, t: Target, at: int, family: Option<string>, policy: string)
    requires Evaluate(r, s, t, at, family, policy).Ok?
    ensures var e := Evaluate(r, s, t, at, family, policy).value.eligibility;
            var supported := r.agentId == "event-edge";
            && (e == Eligible <==> Entitled(r, s, t))
            && (e == OutcomeNotFinal <==> supported && s.finalizedAt == None)
            && (e == ReconciliationMismatch <==> supported && s.finalizedAt.Some? && s.status != Matched)
            && (e == TemporalLeakageRisk <==> supported && Settled(s) && Bound(r, t) && !InTime(r, s, t))
            && (e == TargetUnproven <==>
                  && supported && Settled(s)
                  && (!Bound(r, t) || (InTime(r, s, t) && Binary(s) && r.modelProbability == None)))
            && (e == Unsupported <==> !supported || (Settled(s) && Bound(r, t) && InTime(r, s, t) && !Binary(s)))
  {
    hide Score, TrackOf;
  }

  /**
   An eligible attempt carries the squared error of the model and, where there is a price, of the market against what
   the target's side realized, their difference, and where fees and slippage are known the value per unit. Any other
   attempt carries no score.
  */
  lemma {:induction false} ScoresExactly(r: Receipt, s: Settlement, t: Target, at: int, family: Option<string>, policy: string)
    requires Evaluate(r, s, t, at, family, policy).Ok?
    ensures var e := Evaluate(r, s, t, at, family, policy).value;
            if e.eligibility != Eligible then
              && e.metrics.realized == None && e.metrics.modelBrier == None && e.metrics.marketBrier == None
              && e.metrics.relative == None && e.metrics.unitValue == None
            else
              r.modelProbability.Some? &&
              var won := (s.result == "YES") == (t.side == Yes);
              var y: real := if won then 1.0 else 0.0;
              var p, price := r.modelProbability.value, r.marketPrice;
              && e.metrics.realized == Some(if won then 1 else 0)
              && e.metrics.modelBrier == Some((p - y) * (p - y))
              && (price == None ==> e.metrics.marketBrier == None && e.metrics.relative == None)
              && (price.Some? ==>
                    && e.metrics.marketBrier == Some((price.value - y) * (price.value - y))
                    && e.metrics.relative == Some((price.value - y) * (price.value - y) - (p - y) * (p - y)))
              && (price == None || r.fees == None || r.slippage == None ==> e.metrics.unitValue == None)
              && (price.Some? && r.fees.Some? && r.slippage.Some? ==>
                    e.metrics.unitValue == Some(y - price.value - r.fees.value - r.slippage.value))
  {
    hide Classify, TrackOf;
    EligibilityExactly(r, s, t, at, family, policy);
  }

  /** The rest is carried over from the inputs as it is. */
  lemma {:induction false} CarriedOver(r: Receipt, s: Settlement, t: Target, at: int, family: Option<string>, policy: string)
    requires Evaluate(r, s, t, at, family, policy).Ok?
    ensures var e := Evaluate(r, s, t, at, family, policy).value;
            && e.id == EvaluationId(policy, r.id, s, t) && e.policy == policy && e.receiptId == r.id
            && e.agentId == r.agentId && e.agentVersion == r.agentVersion && e.decision == r.decision
            && e.marketFamily == family && e.target == t && e.settlement == s
            && e.finalizedAt == s.finalizedAt && e.evaluatedAt == at
            && e.modelProbability == r.modelProbability && e.marketProbability == r.marketPrice
            && e.edge == r.edge && e.evidence == r.evidence
  {
    hide Score, Classify, TrackOf;
  }

  /** Two settlements are on one track exactly when they differ in nothing but the four maturation fields. */
  lemma {:induction false} SameTrackExactly(a: Settlement, b: Settlement)
    ensures TrackOf(a) == TrackOf(b) <==>
            a == b.(finalizedAt := a.finalizedAt, recordHash := a.recordHash,
                    sourceObservation := a.sourceObservation, status := a.status)
  {
  }

  // ----- the effective attempt -----

  /** Which eligibility wins over which. */
  predicate Outranks(a: Eligibility, b: Eligibility) {
    match a
    case Eligible => b != Eligible
    case ReconciliationMismatch => b != Eligible && b != ReconciliationMismatch
    case OutcomeNotFinal => b == TemporalLeakageRisk || b == TargetUnproven || b == Unsupported
    case TemporalLeakageRisk => b == TargetUnproven || b == Unsupported
    case TargetUnproven => b == Unsupported
    case Unsupported => false
  }

  /** The finalization that counts; an attempt without one counts as before all others. */
  function Finalization(e: Evaluation): int {
    match e.finalizedAt
    case Some(at) => at
    case None => -62_135_596_800_000_000
  }

  /** Eligibility decides first, then the later finalization, the later evaluation, and the greater identity. */
  predicate Preferred(o: Orders, g: Evaluation, e: Evaluation) {
    || Outranks(g.eligibility, e.eligibility)
    || (g.eligibility == e.eligibility &&
          (|| Finalization(e) < Finalization(g)
           || (Finalization(e) == Finalization(g) &&
                 (|| e.evaluatedAt < g.evaluatedAt
                  || (e.evaluatedAt == g.evaluatedAt && o.idLe(e.id, g.id))))))
  }

  lemma {:induction false} PreferredExactly(o: Orders, g: Evaluation, e: Evaluation)
    ensures Preferred(o, g, e) <==> KeyLe(o, e, g)
  {
  }

  /** The effective attempt of a receipt is one of its attempts under the policy and preferred to each of them. */
  lemma {:induction false} EffectiveIsPreferred(o: Orders, rows: seq<Evaluation>, receipt: Id, policy: string)
    requires ValidOrders(o)
    ensures var g := Effective(o, rows, receipt, policy);
            && (g == None <==> forall e :: e in rows ==> e.receiptId != receipt || e.policy != policy)
            && (g.Some? ==>
                  && g.value in rows && g.value.receiptId == receipt && g.value.policy == policy
                  && forall e :: e in rows && e.receiptId == receipt && e.policy == policy ==> Preferred(o, g.value, e))
  {
    hide Preferred, KeyLe;
    var mine := Attempts(rows, receipt, policy);
    AttemptsMembers(rows, receipt, policy);
    if mine == [] {
      forall e | e in rows ensures e.receiptId != receipt || e.policy != policy {
        assert e !in mine;
      }
    } else {
      assert mine[0] in rows;
      GreatestIsGreatest(o, mine);
      forall e | e in mine ensures Preferred(o, Greatest(o, mine), e) {
        PreferredExactly(o, Greatest(o, mine), e);
      }
    }
  }
}
