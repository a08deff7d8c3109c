/** What a cohort keeps and excludes, and when there is none, in the fields of its rows. */
module CohortRules {
  import opened Evaluation
  import opened Cohorts

  /** The row is scored for the contender, on this very proposition. */
  predicate ScoresUnit(e: Evaluation, c: Contender, u: Unit) {
    && e.eligibility == Eligible && e.target.version == c.targetVersion
    && u.family == e.marketFamily && u.ticker == e.target.marketTicker && u.side == e.target.side
    && u.version == e.target.version && u.track == e.track
  }

  /** A bucket holds exactly the scored rows of its unit, as often as they were read. */
  lemma {:induction false} BucketCount(rows: seq<Evaluation>, c: Contender, u: Unit, e: Evaluation)
    ensures multiset(Bucket(rows, c, u))[e] == if ScoresUnit(e, c, u) then multiset(rows)[e] else 0
  {
    if rows != [] {
      BucketCount(rows[1..], c, u, e);
      assert rows == [rows[0]] + rows[1..];
      ScoredIs(rows[0], c, u);
    }
    hide ScoredFor, ScoresUnit;
  }

  lemma {:induction false} ScoredIs(e: Evaluation, c: Contender, u: Unit)
    ensures ScoredFor(e, c, u) <==> ScoresUnit(e, c, u)
  {
  }

  function RowsFor(rows: seq<Evaluation>, c: Contender, u: Unit): nat {
    |Bucket(rows, c, u)|
  }

  /** Why a unit is excluded: counted by the scored rows each contender has for it. */
  predicate UnitExcluded(p: Pairing, x: Exclusion) {
    var a, b := RowsFor(p.rowsA, p.a, x.unit), RowsFor(p.rowsB, p.b, x.unit);
    && x.ticker == x.unit.ticker
    && match x.reason
       case AmbiguousDuplicate => x.contender == None && (a > 1 || b > 1)
       case AOnly => x.contender == Some(B) && a == 1 && b == 0
       case BOnly => x.contender == Some(A) && a == 0 && b == 1
       case _ => false
  }

  /** Why a row is excluded: it is not eligible, or it is scored against another version. */
  ghost predicate RowExcluded(rows: seq<Evaluation>, c: Contender, who: Who, x: Exclusion) {
    exists e :: e in rows && x.contender == Some(who) && x.ticker == e.target.marketTicker
                && x.unit == Unit(e.marketFamily, e.target.marketTicker, e.target.side, e.target.version, e.track)
                && (if e.eligibility != Eligible then x.reason == NotEligible(e.eligibility)
                    else e.target.version != c.targetVersion && x.reason == TargetVersionMismatch)
  }

  lemma {:induction false} RowExclusionsExactly(rows: seq<Evaluation>, c: Contender, who: Who, x: Exclusion)
    ensures x in RowExclusions(rows, c, who) <==> RowExcluded(rows, c, who, x)
  {
    if rows != [] {
      RowExclusionsExactly(rows[1..], c, who, x);
      assert forall e :: e in rows <==> e == rows[0] || e in rows[1..];
    }
  }

  lemma {:induction false} UnitExclusionsMembers(p: Pairing, units: seq<Unit>, x: Exclusion)
    ensures x in UnitExclusions(p, units) <==> x.unit in units && Fated(p, x.unit) == Excluded(x)
  {
    hide Fated;
    if units != [] {
      UnitExclusionsMembers(p, units[1..], x);
      FatedUnit(p, units[0]);
      assert x.unit in units <==> x.unit == units[0] || x.unit in units[1..];
    }
  }

  lemma {:induction false} FateExactly(p: Pairing, x: Exclusion)
    requires x.unit in ScoredUnits(p.rowsA, p.a) + ScoredUnits(p.rowsB, p.b)
    ensures Fated(p, x.unit) == Excluded(x) <==> UnitExcluded(p, x)
  {
    hide Bucket, ScoredUnits;
    BucketMembers(p.rowsA, p.a, x.unit);
    BucketMembers(p.rowsB, p.b, x.unit);
  }

  lemma {:induction false} ExcludedIsScored(p: Pairing, x: Exclusion)
    requires UnitExcluded(p, x)
    ensures x.unit in ScoredUnits(p.rowsA, p.a) + ScoredUnits(p.rowsB, p.b)
  {
    hide Bucket, ScoredUnits;
    BucketMembers(p.rowsA, p.a, x.unit);
    BucketMembers(p.rowsB, p.b, x.unit);
  }

  /**
   Exactly what a cohort excludes: a row that is not eligible or of another version, a unit with two rows on a side,
   and a unit only one side has, named by that side with the other as the contender who lacks it.
  */
  lemma {:induction false} ExcludedExactly(k: Cohort, p: Pairing, units: seq<Unit>, unitLe: (Unit, Unit) -> bool, x: Exclusion)
    requires IsCohort(k, p, units, unitLe)
    ensures x in k.exclusions <==>
            RowExcluded(p.rowsA, p.a, A, x) || RowExcluded(p.rowsB, p.b, B, x) || UnitExcluded(p, x)
  {
    hide RowExclusions, UnitExclusions, RowExcluded, Fated, UnitExcluded, ScoredUnits;
    RowExclusionsExactly(p.rowsA, p.a, A, x);
    RowExclusionsExactly(p.rowsB, p.b, B, x);
    UnitExclusionsMembers(p, units, x);
    if x.unit in units {
      FateExactly(p, x);
    } else if UnitExcluded(p, x) {
      ExcludedIsScored(p, x);
    }
  }

  /** Only these contenders have comparable outcomes. */
  predicate Comparable(c: Contender) {
    c.agentId == "event-edge" && c.policy == "m26c-receipt-outcome-v1" && c.targetVersion == "event-edge-binary-v1"
  }

  /**
   Between contenders of one store there is a cohort exactly when no contender has an eligible effective row in the
   window that is not comparable, is of another target version, or lacks its score.
  */
  lemma {:induction false} CohortExistsExactly(o: Orders, p: Pairing, rows: seq<Evaluation>, start: int, end: int)
    requires IsPairing(o, p, rows, start, end)
    ensures AllAgree(p.rowsA, p.a) <==>
            forall e :: e in p.rowsA && e.eligibility == Eligible ==>
              Comparable(p.a) && e.target.version == p.a.targetVersion && e.metrics.modelBrier.Some?
    ensures AllAgree(p.rowsB, p.b) <==>
            forall e :: e in p.rowsB && e.eligibility == Eligible ==>
              Comparable(p.b) && e.target.version == p.b.targetVersion && e.metrics.modelBrier.Some?
  {
    hide Effective, InReceiptOrder;
    assert forall e :: e in p.rowsA ==> InWindow(e, p.a, start, end);
    assert forall e :: e in p.rowsB ==> InWindow(e, p.b, start, end);
  }

  /** The window is closed at both ends, and an absent family admits every family. */
  lemma {:induction false} WindowExactly(rows: seq<Evaluation>, c: Contender, start: int, end: int, e: Evaluation)
    ensures e in WindowRows(rows, c, start, end) <==>
            && e in rows && e.agentId == c.agentId && e.agentVersion == c.agentVersion && e.policy == c.policy
            && start <= e.evaluatedAt && e.evaluatedAt <= end
            && (c.family.Some? ==> e.marketFamily == c.family)
  {
  }
}
