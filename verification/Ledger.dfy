/** The append-only evaluation ledger: conflict rules, stability of the effective attempt, and replay. */
module Ledger {
  import opened Ordering
  import opened Evaluation

  datatype Outcome = Inserted | Replayed | IdentityCollision | ContradictoryFinal | LifecycleConflict

  predicate HasId(rows: seq<Evaluation>, id: EvaluationId) {
    exists e :: e in rows && e.id == id
  }

  /** `EvaluationStore.append`, check by check. */
  function Verdict(rows: seq<Evaluation>, e: Evaluation): Outcome {
    if exists x :: x in rows && x.id == e.id && LogicalMaterial(x) == LogicalMaterial(e) then Replayed
    else if HasId(rows, e.id) then IdentityCollision
    else if e.eligibility == Eligible && (exists x :: x in rows && Mine(x, e.receiptId, e.policy) && x.eligibility == Eligible)
      then ContradictoryFinal
    else if exists x :: x in rows && Mine(x, e.receiptId, e.policy) && x.track != e.track then LifecycleConflict
    else Inserted
  }

  function Appended(rows: seq<Evaluation>, e: Evaluation): seq<Evaluation> {
    if Verdict(rows, e) == Inserted then rows + [e] else rows
  }

  function AppendAll(rows: seq<Evaluation>, es: seq<Evaluation>): seq<Evaluation>
    decreases |es|
  {
    if es == [] then rows else AppendAll(Appended(rows, es[0]), es[1..])
  }

  /** The store object; each append is one transaction. */
  class EvaluationStore {
    var rows: seq<Evaluation>

    constructor ()
      ensures rows == []
    {
      rows := [];
    }

    method Append(e: Evaluation) returns (outcome: Outcome)
      requires DistinctIds(rows)
      modifies this
      ensures outcome == Verdict(old(rows), e)
      ensures rows == Appended(old(rows), e)
      ensures old(rows) <= rows && DistinctIds(rows)
    {
      var i := 0;
      while i < |rows| && rows[i].id != e.id
        invariant 0 <= i <= |rows|
        invariant forall j :: 0 <= j < i ==> rows[j].id != e.id
      {
        i := i + 1;
      }
      if i < |rows| {
        SameIdSameRow(rows, i);
        return if LogicalMaterial(rows[i]) == LogicalMaterial(e) then Replayed else IdentityCollision;
      }
      var prior := Attempts(rows, e.receiptId, e.policy);
      AttemptsMembers(rows, e.receiptId, e.policy);
      if e.eligibility == Eligible && exists x :: x in prior && x.eligibility == Eligible {
        return ContradictoryFinal;
      }
      if exists x :: x in prior && x.track != e.track {
        return LifecycleConflict;
      }
      rows := rows + [e];
      return Inserted;
    }

    method EffectiveForReceipt(o: Orders, receipt: Id, policy: string) returns (best: Option<Evaluation>)
      requires ValidOrders(o)
      ensures best == Effective(o, rows, receipt, policy)
    {
      var mine := Attempts(rows, receipt, policy);
      AttemptsMembers(rows, receipt, policy);
      var effective := EffectiveEvaluations(o, mine, policy);
      AttemptsOfAttempts(rows, receipt, policy);
      if mine == [] {
        assert effective == [] || effective[0] in effective;
        return None;
      }
      var g := Greatest(o, mine);
      assert Attempts(mine, receipt, policy) == mine && g in mine;
      assert Effective(o, mine, g.receiptId, policy) == Some(g);
      assert g in effective;
      OneReceiptOneRow(o, effective, receipt);
      return Some(effective[0]);
    }
  }

  lemma {:induction false} OneReceiptOneRow(o: Orders, effective: seq<Evaluation>, receipt: Id)
    requires effective != [] && forall e :: e in effective ==> e.receiptId == receipt
    requires forall i, j :: 0 <= i < j < |effective| ==> effective[i].receiptId != effective[j].receiptId
    ensures |effective| == 1
  {
    assert effective[|effective| - 1] in effective && effective[0] in effective;
  }

  lemma {:induction false} AttemptsOfAttempts(rows: seq<Evaluation>, receipt: Id, policy: string)
    ensures Attempts(Attempts(rows, receipt, policy), receipt, policy) == Attempts(rows, receipt, policy)
  {
    if rows != [] {
      AttemptsOfAttempts(rows[1..], receipt, policy);
      var head := if Mine(rows[0], receipt, policy) then [rows[0]] else [];
      AttemptsAppend(head, Attempts(rows[1..], receipt, policy), receipt, policy);
    }
  }

  lemma {:induction false} SameIdSameRow(rows: seq<Evaluation>, i: nat)
    requires DistinctIds(rows) && i < |rows|
    ensures forall x :: x in rows && x.id == rows[i].id ==> x == rows[i]
  {
  }

  /** Two attempts that differ in nothing but the time they were made. */
  predicate SameButTime(x: Evaluation, e: Evaluation) {
    x == e.(evaluatedAt := x.evaluatedAt)
  }

  predicate Related(x: Evaluation, e: Evaluation) {
    x.receiptId == e.receiptId && x.policy == e.policy
  }

  /** Each verdict's exact condition over the stored rows. */
  lemma {:induction false} VerdictExactly(rows: seq<Evaluation>, e: Evaluation)
    ensures var known := exists x :: x in rows && x.id == e.id;
            var second := e.eligibility == Eligible && exists x :: x in rows && Related(x, e) && x.eligibility == Eligible;
            var strayed := exists x :: x in rows && Related(x, e) && x.track != e.track;
            && (Verdict(rows, e) == Replayed <==> exists x :: x in rows && SameButTime(x, e))
            && (Verdict(rows, e) == IdentityCollision <==> known && forall x :: x in rows ==> !SameButTime(x, e))
            && (Verdict(rows, e) == ContradictoryFinal <==> !known && second)
            && (Verdict(rows, e) == LifecycleConflict <==> !known && !second && strayed)
            && (Verdict(rows, e) == Inserted <==> !known && !second && !strayed)
  {
    forall x: Evaluation ensures x.id == e.id && LogicalMaterial(x) == LogicalMaterial(e) <==> SameButTime(x, e) {
    }
    hide LogicalMaterial, SameButTime;
    forall x: Evaluation ensures Mine(x, e.receiptId, e.policy) <==> Related(x, e) {
    }
    assert forall x :: SameButTime(x, e) ==> x.id == e.id;
  }

  // ----- what the conflict rules keep -----

  ghost predicate OneFinal(rows: seq<Evaluation>) {
    forall i, j ::
      (0 <= i < |rows| && 0 <= j < |rows| && Mine(rows[j], rows[i].receiptId, rows[i].policy)
       && rows[i].eligibility == Eligible && rows[j].eligibility == Eligible)
      ==> i == j
  }

  ghost predicate OneTrack(rows: seq<Evaluation>) {
    forall i, j :: 0 <= i < j < |rows| && Mine(rows[j], rows[i].receiptId, rows[i].policy) ==> rows[i].track == rows[j].track
  }

  ghost predicate LedgerInv(rows: seq<Evaluation>) {
    DistinctIds(rows) && OneFinal(rows) && OneTrack(rows)
  }

  lemma {:induction false} AppendInv(rows: seq<Evaluation>, e: Evaluation)
    requires LedgerInv(rows)
    ensures LedgerInv(Appended(rows, e)) && rows <= Appended(rows, e)
  {
  }

  /**
   After any sequence of appends each receipt and policy has at most one eligible row and one settlement
   track, identities are unique, and earlier rows are still there, in place.
  */
  lemma {:induction false} LedgerInvariant(rows: seq<Evaluation>, es: seq<Evaluation>)
    requires LedgerInv(rows)
    ensures LedgerInv(AppendAll(rows, es)) && rows <= AppendAll(rows, es)
    decreases |es|
  {
    if es != [] {
      AppendInv(rows, es[0]);
      LedgerInvariant(Appended(rows, es[0]), es[1..]);
    }
    hide LedgerInv, Appended;
  }

  lemma {:induction false} DistinctDetermine(rows: seq<Evaluation>)
    requires DistinctIds(rows)
    ensures IdsDetermineRows(rows)
  {
  }

  lemma {:induction false} PrefixMembers(a: seq<Evaluation>, b: seq<Evaluation>, e: Evaluation)
    requires a <= b && e in a
    ensures e in b
  {
  }

  /** The effective rank of a receipt never decreases, and an effective attempt never disappears. */
  lemma {:induction false} EffectiveRankMonotone(o: Orders, rows: seq<Evaluation>, es: seq<Evaluation>, receipt: Id, policy: string)
    requires ValidOrders(o) && LedgerInv(rows)
    ensures Effective(o, rows, receipt, policy).Some? ==>
              && Effective(o, AppendAll(rows, es), receipt, policy).Some?
              && Rank(Effective(o, rows, receipt, policy).value.eligibility)
                 <= Rank(Effective(o, AppendAll(rows, es), receipt, policy).value.eligibility)
  {
    var later := AppendAll(rows, es);
    LedgerInvariant(rows, es);
    AttemptsMembers(rows, receipt, policy);
    AttemptsMembers(later, receipt, policy);
    hide LedgerInv, AppendAll;
    if Effective(o, rows, receipt, policy).Some? {
      var best := Effective(o, rows, receipt, policy).value;
      PrefixMembers(rows, later, best);
      assert best in Attempts(later, receipt, policy);
      GreatestIsGreatest(o, Attempts(later, receipt, policy));
      assert KeyLe(o, best, Greatest(o, Attempts(later, receipt, policy)));
    }
  }

  /** Once a receipt's effective attempt is eligible, no later append changes it. */
  lemma {:induction false} EligibleIsPermanent(o: Orders, rows: seq<Evaluation>, es: seq<Evaluation>, receipt: Id, policy: string)
    requires ValidOrders(o) && LedgerInv(rows)
    requires Effective(o, rows, receipt, policy).Some?
    requires Effective(o, rows, receipt, policy).value.eligibility == Eligible
    ensures Effective(o, AppendAll(rows, es), receipt, policy) == Effective(o, rows, receipt, policy)
  {
    hide AppendAll, DistinctIds, OneTrack, TotalOrder;
    var later := AppendAll(rows, es);
    var best := Effective(o, rows, receipt, policy).value;
    EffectiveRankMonotone(o, rows, es, receipt, policy);
    LedgerInvariant(rows, es);
    AttemptsMembers(rows, receipt, policy);
    AttemptsMembers(later, receipt, policy);
    PrefixMembers(rows, later, best);
    var now := Effective(o, later, receipt, policy).value;
    assert Rank(now.eligibility) == 6;
    OnlyOneFinal(later, best, now);
  }

  lemma {:induction false} OnlyOneFinal(rows: seq<Evaluation>, a: Evaluation, b: Evaluation)
    requires OneFinal(rows) && a in rows && b in rows && Mine(b, a.receiptId, a.policy)
    requires a.eligibility == Eligible && b.eligibility == Eligible
    ensures a == b
  {
  }

  /** The projection of a ledger does not depend on the order its rows are read in. */
  lemma {:induction false} LedgerReadOrder(o: Orders, rows: seq<Evaluation>, read: seq<Evaluation>, receipt: Id, policy: string)
    requires ValidOrders(o) && LedgerInv(rows) && multiset(read) == multiset(rows)
    ensures Effective(o, read, receipt, policy) == Effective(o, rows, receipt, policy)
  {
    DistinctDetermine(rows);
    forall e ensures e in rows <==> e in read {
      assert e in rows <==> e in multiset(rows);
      assert e in read <==> e in multiset(read);
    }
    EffectiveOrderIndependent(o, rows, read, receipt, policy);
  }

  // ----- settlement maturation and replay -----

  /** The fixed part of a maturing evaluation. */
  datatype Subject = Subject(receipt: Receipt, target: Target, family: Option<string>, policy: string, track: Track)

  datatype Snapshot = Snapshot(settlement: Settlement, at: int)

  predicate Evaluable(u: Subject, s: Snapshot) {
    TrackOf(s.settlement) == u.track && Evaluate(u.receipt, s.settlement, u.target, s.at, u.family, u.policy).Ok?
  }

  function Attempt(u: Subject, s: Snapshot): Evaluation
    requires Evaluable(u, s)
  {
    Evaluate(u.receipt, s.settlement, u.target, s.at, u.family, u.policy).value
  }

  /** Every row of the subject's receipt and policy is an attempt on one of its snapshots. */
  ghost predicate OneLifecycle(rows: seq<Evaluation>, u: Subject) {
    forall e :: e in rows && Mine(e, u.receipt.id, u.policy) ==>
      exists s :: Evaluable(u, s) && e == Attempt(u, s)
  }

  ghost predicate IdsMatch(rows: seq<Evaluation>) {
    forall e :: e in rows ==> RowValid(e)
  }

  predicate Known(rows: seq<Evaluation>, u: Subject, settlement: Settlement) {
    HasId(rows, EvaluationId(u.policy, u.receipt.id, settlement, u.target))
  }

  predicate HasFinal(rows: seq<Evaluation>, u: Subject) {
    exists x :: x in rows && Mine(x, u.receipt.id, u.policy) && x.eligibility == Eligible
  }

  /**
   Appending an attempt of the lifecycle: a settlement already known is a replay at whatever time it is
   re-evaluated; otherwise it is inserted, unless it would be a second final one. There is no third case.
  */
  lemma {:induction false} MaturationVerdict(rows: seq<Evaluation>, u: Subject, s: Snapshot)
    requires IdsMatch(rows) && OneLifecycle(rows, u) && Evaluable(u, s)
    ensures Verdict(rows, Attempt(u, s)) ==
            if Known(rows, u, s.settlement) then Replayed
            else if Attempt(u, s).eligibility == Eligible && HasFinal(rows, u) then ContradictoryFinal
            else Inserted
  {
  }

  lemma {:induction false} LifecycleKept(rows: seq<Evaluation>, u: Subject, s: Snapshot)
    requires IdsMatch(rows) && OneLifecycle(rows, u) && Evaluable(u, s)
    ensures IdsMatch(Appended(rows, Attempt(u, s))) && OneLifecycle(Appended(rows, Attempt(u, s)), u)
    ensures Known(Appended(rows, Attempt(u, s)), u, s.settlement) || Attempt(u, s).eligibility == Eligible
  {
  }

  function Mature(rows: seq<Evaluation>, u: Subject, snapshots: seq<Snapshot>): seq<Evaluation>
    requires forall i :: 0 <= i < |snapshots| ==> Evaluable(u, snapshots[i])
    decreases |snapshots|
  {
    if snapshots == [] then rows else Mature(Appended(rows, Attempt(u, snapshots[0])), u, snapshots[1..])
  }

  lemma {:induction false} MatureKeeps(rows: seq<Evaluation>, u: Subject, snapshots: seq<Snapshot>)
    requires forall i :: 0 <= i < |snapshots| ==> Evaluable(u, snapshots[i])
    requires LedgerInv(rows) && IdsMatch(rows) && OneLifecycle(rows, u)
    ensures var after := Mature(rows, u, snapshots);
            LedgerInv(after) && IdsMatch(after) && OneLifecycle(after, u) && rows <= after
    decreases |snapshots|
  {
    if snapshots != [] {
      LifecycleKept(rows, u, snapshots[0]);
      AppendInv(rows, Attempt(u, snapshots[0]));
      MatureKeeps(Appended(rows, Attempt(u, snapshots[0])), u, snapshots[1..]);
    }
  }

  /**
   Maturation: after evaluating and appending any snapshots of one lifecycle, a further one never raises
   a lifecycle conflict or an identity collision, and is refused only as a second final evaluation.
  */
  lemma {:induction false} MaturationNeverConflicts(rows: seq<Evaluation>, u: Subject, snapshots: seq<Snapshot>, next: Snapshot)
    requires forall i :: 0 <= i < |snapshots| ==> Evaluable(u, snapshots[i])
    requires LedgerInv(rows) && IdsMatch(rows) && OneLifecycle(rows, u) && Evaluable(u, next)
    ensures var after := Mature(rows, u, snapshots);
            && Verdict(after, Attempt(u, next)) in {Inserted, Replayed, ContradictoryFinal}
            && (Verdict(after, Attempt(u, next)) == ContradictoryFinal <==>
                  !Known(after, u, next.settlement) && Attempt(u, next).eligibility == Eligible && HasFinal(after, u))
  {
    MatureKeeps(rows, u, snapshots);
    MaturationVerdict(Mature(rows, u, snapshots), u, next);
    hide Mature, LedgerInv;
  }

  /** Re-evaluating a stored settlement at any other time returns False and leaves the ledger alone. */
  lemma {:induction false} ReplayChangesNothing(rows: seq<Evaluation>, u: Subject, snapshots: seq<Snapshot>, again: Snapshot)
    requires forall i :: 0 <= i < |snapshots| ==> Evaluable(u, snapshots[i])
    requires LedgerInv(rows) && IdsMatch(rows) && OneLifecycle(rows, u) && Evaluable(u, again)
    requires Known(Mature(rows, u, snapshots), u, again.settlement)
    ensures var after := Mature(rows, u, snapshots);
            Verdict(after, Attempt(u, again)) == Replayed && Appended(after, Attempt(u, again)) == after
  {
    MatureKeeps(rows, u, snapshots);
    MaturationVerdict(Mature(rows, u, snapshots), u, again);
    hide Mature, LedgerInv;
  }

  /**
   The market family is not part of an evaluation's identity but is part of its logical material: the
   same settlement of the same receipt replays exactly when the family is the one already stored.
  */
  lemma {:induction false} ReplayNeedsSameFamily(rows: seq<Evaluation>, u: Subject, s: Snapshot, family: Option<string>, at: int)
    requires DistinctIds(rows) && Evaluable(u, s) && Attempt(u, s) in rows
    ensures var other := u.(family := family);
            var again := Snapshot(s.settlement, at);
            && Evaluable(other, again)
            && Verdict(rows, Attempt(other, again)) == (if family == u.family then Replayed else IdentityCollision)
  {
  }
}
