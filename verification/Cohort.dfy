/** Paired comparison cohorts: every unit is accounted for once, and swapping contenders mirrors the result. */
module Cohorts {
  import opened Ordering
  import opened Evaluation

  /** The proposition two contenders may share; its id hashes these fields. */
  datatype Unit = Unit(family: Option<string>, ticker: string, side: Side, version: string, track: Track)

  function UnitOf(e: Evaluation): Unit {
    Unit(e.marketFamily, e.target.marketTicker, e.target.side, e.target.version, e.track)
  }

  datatype Contender = Contender(agentId: string, agentVersion: string, policy: string, targetVersion: string, family: Option<string>)

  datatype Who = A | B

  datatype Reason =
    | NotEligible(eligibility: Eligibility)
    | TargetVersionMismatch
    | AmbiguousDuplicate
    | AOnly
    | BOnly

  datatype Exclusion = Exclusion(unit: Unit, ticker: string, reason: Reason, contender: Option<Who>)

  datatype Shared = Shared(unit: Unit, a: Evaluation, b: Evaluation)

  datatype Cohort = Cohort(shared: seq<Shared>, exclusions: seq<Exclusion>)

  /** Two contenders with the effective rows of each. */
  datatype Pairing = Pairing(rowsA: seq<Evaluation>, rowsB: seq<Evaluation>, a: Contender, b: Contender)

  function Swapped(p: Pairing): Pairing {
    Pairing(p.rowsB, p.rowsA, p.b, p.a)
  }

  /** `_capability_for`: only this agent, policy and target version have comparable outcomes. */
  predicate Capable(c: Contender) {
    c.agentId == "event-edge" && c.policy == "m26c-receipt-outcome-v1" && c.targetVersion == "event-edge-binary-v1"
  }

  /** `_eligible_row_agrees`. */
  predicate Agrees(e: Evaluation, c: Contender) {
    && Capable(c) && e.agentId == c.agentId && e.agentVersion == c.agentVersion && e.policy == c.policy
    && e.target.version == c.targetVersion && e.metrics.modelBrier.Some?
  }

  predicate Scored(e: Evaluation, c: Contender) {
    e.eligibility == Eligible && e.target.version == c.targetVersion
  }

  predicate ScoredFor(e: Evaluation, c: Contender, u: Unit) {
    Scored(e, c) && UnitOf(e) == u
  }

  /** The scored rows of one unit, in row order. */
  function Bucket(rows: seq<Evaluation>, c: Contender, u: Unit): seq<Evaluation> {
    if rows == [] then []
    else (if ScoredFor(rows[0], c, u) then [rows[0]] else []) + Bucket(rows[1..], c, u)
  }

  function RowExclusion(e: Evaluation, who: Who): Exclusion {
    Exclusion(UnitOf(e), e.target.marketTicker,
              if e.eligibility != Eligible then NotEligible(e.eligibility) else TargetVersionMismatch, Some(who))
  }

  /** One exclusion per row that is not scored. */
  function RowExclusions(rows: seq<Evaluation>, c: Contender, who: Who): seq<Exclusion> {
    if rows == [] then []
    else (if Scored(rows[0], c) then [] else [RowExclusion(rows[0], who)]) + RowExclusions(rows[1..], c, who)
  }

  function ScoredUnits(rows: seq<Evaluation>, c: Contender): set<Unit> {
    set e | e in rows && Scored(e, c) :: UnitOf(e)
  }

  /** What becomes of a unit: shared, or the reason why not. */
  datatype Fate = Kept(item: Shared) | Excluded(exclusion: Exclusion)

  function FateOf(u: Unit, a: seq<Evaluation>, b: seq<Evaluation>): Fate {
    if |a| > 1 || |b| > 1 then Excluded(Exclusion(u, u.ticker, AmbiguousDuplicate, None))
    else if a == [] || b == [] then
      Excluded(Exclusion(u, u.ticker, if a != [] then AOnly else BOnly, Some(if a != [] then B else A)))
    else Kept(Shared(u, a[0], b[0]))
  }

  function Fated(p: Pairing, u: Unit): Fate {
    FateOf(u, Bucket(p.rowsA, p.a, u), Bucket(p.rowsB, p.b, u))
  }

  function SharedOf(p: Pairing, units: seq<Unit>): seq<Shared> {
    if units == [] then []
    else (match Fated(p, units[0]) case Kept(x) => [x] case Excluded(_) => []) + SharedOf(p, units[1..])
  }

  function UnitExclusions(p: Pairing, units: seq<Unit>): seq<Exclusion> {
    if units == [] then []
    else (match Fated(p, units[0]) case Kept(_) => [] case Excluded(x) => [x]) + UnitExclusions(p, units[1..])
  }

  ghost predicate AllAgree(rows: seq<Evaluation>, c: Contender) {
    forall e :: e in rows && e.eligibility == Eligible ==> Agrees(e, c)
  }

  ghost predicate Distinct(units: seq<Unit>) {
    forall i, j :: 0 <= i < j < |units| ==> units[i] != units[j]
  }

  /** `units` lists every unit with a scored row once, in unit-id order. */
  ghost predicate UnitList(p: Pairing, units: seq<Unit>, unitLe: (Unit, Unit) -> bool) {
    && (forall u :: u in units <==> u in ScoredUnits(p.rowsA, p.a) + ScoredUnits(p.rowsB, p.b))
    && Distinct(units) && SortedBy(units, unitLe)
  }

  /** The cohort of a pairing. Exclusions are compared as a bag: the code sorts them last. */
  ghost predicate IsCohort(k: Cohort, p: Pairing, units: seq<Unit>, unitLe: (Unit, Unit) -> bool) {
    && UnitList(p, units, unitLe)
    && k.shared == SharedOf(p, units)
    && k.exclusions == RowExclusions(p.rowsA, p.a, A) + RowExclusions(p.rowsB, p.b, B) + UnitExclusions(p, units)
  }

  // ----- `_build_cohort` as it runs -----

  lemma {:induction false} BucketAppend(rows: seq<Evaluation>, e: Evaluation, c: Contender, u: Unit)
    ensures Bucket(rows + [e], c, u) == Bucket(rows, c, u) + (if ScoredFor(e, c, u) then [e] else [])
  {
    hide ScoredFor;
    if rows == [] {
      assert [e][1..] == [] && [] + [e] == [e];
    } else {
      BucketAppend(rows[1..], e, c, u);
      assert (rows + [e])[1..] == rows[1..] + [e];
    }
  }

  lemma {:induction false} RowExclusionsAppend(rows: seq<Evaluation>, e: Evaluation, c: Contender, who: Who)
    ensures RowExclusions(rows + [e], c, who) ==
            RowExclusions(rows, c, who) + (if Scored(e, c) then [] else [RowExclusion(e, who)])
  {
    hide Scored, RowExclusion;
    if rows == [] {
      assert [e][1..] == [] && [] + [e] == [e];
    } else {
      RowExclusionsAppend(rows[1..], e, c, who);
      assert (rows + [e])[1..] == rows[1..] + [e];
    }
  }

  lemma {:induction false} BucketMembers(rows: seq<Evaluation>, c: Contender, u: Unit)
    ensures Bucket(rows, c, u) != [] <==> u in ScoredUnits(rows, c)
    ensures forall e :: e in Bucket(rows, c, u) ==> e in rows && Scored(e, c) && UnitOf(e) == u
  {
    hide Scored, UnitOf;
    if rows != [] {
      BucketMembers(rows[1..], c, u);
      assert forall e :: e in rows <==> e == rows[0] || e in rows[1..];
    }
  }

  /** A contender's groups: each unit with a scored row holds its rows in order. */
  ghost predicate GroupsOf(groups: map<Unit, seq<Evaluation>>, rows: seq<Evaluation>, c: Contender) {
    forall u :: (if u in groups then groups[u] else []) == Bucket(rows, c, u)
  }

  lemma {:induction false} GroupOne(groups: map<Unit, seq<Evaluation>>, rows: seq<Evaluation>, e: Evaluation, c: Contender)
    returns (after: map<Unit, seq<Evaluation>>)
    requires GroupsOf(groups, rows, c)
    ensures after == if Scored(e, c)
                     then groups[UnitOf(e) := (if UnitOf(e) in groups then groups[UnitOf(e)] else []) + [e]] else groups
    ensures GroupsOf(after, rows + [e], c)
  {
    hide Bucket, UnitOf;
    after := if Scored(e, c)
             then groups[UnitOf(e) := (if UnitOf(e) in groups then groups[UnitOf(e)] else []) + [e]] else groups;
    forall u ensures (if u in after then after[u] else []) == Bucket(rows + [e], c, u) {
      BucketAppend(rows, e, c, u);
    }
  }

  /** One contender's pass: group the scored rows by unit, exclude the others, refuse a disagreeing row. */
  method GroupRows(rows: seq<Evaluation>, c: Contender, who: Who)
    returns (ok: bool, groups: map<Unit, seq<Evaluation>>, exclusions: seq<Exclusion>)
    ensures ok <==> AllAgree(rows, c)
    ensures ok ==> exclusions == RowExclusions(rows, c, who)
    ensures ok ==> GroupsOf(groups, rows, c) && groups.Keys == ScoredUnits(rows, c)
  {
    hide Bucket, RowExclusions, Agrees, UnitOf;
    groups, exclusions, ok := map[], [], true;
    assert RowExclusions([], c, who) == [] && GroupsOf(map[], [], c) by {
      EmptyGroups(c, who);
    }
    var i := 0;
    while i < |rows|
      invariant 0 <= i <= |rows|
      invariant forall e :: e in rows[..i] && e.eligibility == Eligible ==> Agrees(e, c)
      invariant exclusions == RowExclusions(rows[..i], c, who)
      invariant GroupsOf(groups, rows[..i], c)
      invariant groups.Keys == ScoredUnits(rows[..i], c)
    {
      var e := rows[i];
      assert rows[..i + 1] == rows[..i] + [e];
      if e.eligibility == Eligible && !Agrees(e, c) {
        ok := false;
        return;
      }
      RowExclusionsAppend(rows[..i], e, c, who);
      ghost var after := GroupOne(groups, rows[..i], e, c);
      if !Scored(e, c) {
        exclusions := exclusions + [RowExclusion(e, who)];
      } else {
        groups := groups[UnitOf(e) := (if UnitOf(e) in groups then groups[UnitOf(e)] else []) + [e]];
      }
      assert groups == after;
      i := i + 1;
    }
    assert rows[..i] == rows;
  }

  lemma {:induction false} EmptyGroups(c: Contender, who: Who)
    ensures RowExclusions([], c, who) == [] && GroupsOf(map[], [], c)
  {
  }

  lemma {:induction false} UnitsAppend(p: Pairing, units: seq<Unit>, u: Unit)
    ensures SharedOf(p, units + [u]) == SharedOf(p, units) + (match Fated(p, u) case Kept(x) => [x] case Excluded(_) => [])
    ensures UnitExclusions(p, units + [u]) ==
            UnitExclusions(p, units) + (match Fated(p, u) case Kept(_) => [] case Excluded(x) => [x])
  {
    hide Fated;
    if units == [] {
      assert [] + [u] == [u] && [u][1..] == [];
    } else {
      UnitsAppend(p, units[1..], u);
      assert (units + [u])[1..] == units[1..] + [u];
    }
  }

  /** The second pass: decide each unit in order. */
  method DecideUnits(
    ghost p: Pairing, order: seq<Unit>, groupsA: map<Unit, seq<Evaluation>>, groupsB: map<Unit, seq<Evaluation>>)
    returns (shared: seq<Shared>, excluded: seq<Exclusion>)
    requires GroupsOf(groupsA, p.rowsA, p.a) && GroupsOf(groupsB, p.rowsB, p.b)
    ensures shared == SharedOf(p, order) && excluded == UnitExclusions(p, order)
  {
    hide Bucket, FateOf;
    shared, excluded := [], [];
    var i := 0;
    while i < |order|
      invariant 0 <= i <= |order|
      invariant shared == SharedOf(p, order[..i]) && excluded == UnitExclusions(p, order[..i])
    {
      var u := order[i];
      var inA := if u in groupsA then groupsA[u] else [];
      var inB := if u in groupsB then groupsB[u] else [];
      assert inA == Bucket(p.rowsA, p.a, u) && inB == Bucket(p.rowsB, p.b, u);
      var fate := FateOf(u, inA, inB);
      assert fate == Fated(p, u);
      UnitsAppend(p, order[..i], u);
      assert order[..i + 1] == order[..i] + [u];
      match fate {
        case Kept(item) => shared := shared + [item];
        case Excluded(exclusion) => excluded := excluded + [exclusion];
      }
      i := i + 1;
    }
    assert order[..i] == order;
  }

  /** Group both contenders, then decide every unit in unit order. */
  method BuildCohort(unitLe: (Unit, Unit) -> bool, p: Pairing) returns (k: Option<Cohort>, units: seq<Unit>)
    requires TotalOrder(unitLe)
    ensures k.Some? <==> AllAgree(p.rowsA, p.a) && AllAgree(p.rowsB, p.b)
    ensures k.Some? ==> IsCohort(k.value, p, units, unitLe)
  {
    hide TotalOrder, Bucket, RowExclusions, AllAgree, GroupsOf, SharedOf, UnitExclusions, ScoredUnits;
    units := [];
    var okA, groupsA, exclusionsA := GroupRows(p.rowsA, p.a, A);
    if !okA {
      return None, units;
    }
    var okB, groupsB, exclusionsB := GroupRows(p.rowsB, p.b, B);
    if !okB {
      return None, units;
    }
    units := SortedElements(unitLe, groupsA.Keys + groupsB.Keys);
    var shared, excluded := DecideUnits(p, units, groupsA, groupsB);
    k := Some(Cohort(shared, exclusionsA + exclusionsB + excluded));
  }

  // ----- conservation -----

  function SharedCount(s: seq<Shared>, u: Unit): nat {
    if s == [] then 0 else (if s[0].unit == u then 1 else 0) + SharedCount(s[1..], u)
  }

  function ExclusionCount(s: seq<Exclusion>, u: Unit): nat {
    if s == [] then 0 else (if s[0].unit == u then 1 else 0) + ExclusionCount(s[1..], u)
  }

  lemma {:induction false} FatedUnit(p: Pairing, u: Unit)
    ensures match Fated(p, u) case Kept(x) => x.unit == u case Excluded(x) => x.unit == u
  {
    hide Bucket;
  }

  lemma {:induction false} UnitsAccount(p: Pairing, units: seq<Unit>, u: Unit)
    requires Distinct(units)
    ensures SharedCount(SharedOf(p, units), u) + ExclusionCount(UnitExclusions(p, units), u) == if u in units then 1 else 0
    ensures |SharedOf(p, units)| + |UnitExclusions(p, units)| == |units|
  {
    hide Fated;
    if units != [] {
      var rest := units[1..];
      UnitsAccount(p, rest, u);
      FatedUnit(p, units[0]);
      assert units[0] !in rest;
      assert u in units <==> u == units[0] || u in rest;
      match Fated(p, units[0]) {
        case Kept(x) =>
          assert ([x] + SharedOf(p, rest))[1..] == SharedOf(p, rest);
          assert [] + UnitExclusions(p, rest) == UnitExclusions(p, rest);
        case Excluded(x) =>
          assert ([x] + UnitExclusions(p, rest))[1..] == UnitExclusions(p, rest);
          assert [] + SharedOf(p, rest) == SharedOf(p, rest);
      }
    }
  }

  function ScoredRows(rows: seq<Evaluation>, c: Contender): nat {
    if rows == [] then 0 else (if Scored(rows[0], c) then 1 else 0) + ScoredRows(rows[1..], c)
  }

  lemma {:induction false} RowsAccount(rows: seq<Evaluation>, c: Contender, who: Who)
    ensures |RowExclusions(rows, c, who)| + ScoredRows(rows, c) == |rows|
  {
    hide Scored, RowExclusion;
    if rows != [] {
      RowsAccount(rows[1..], c, who);
    }
  }

  /**
   Conservation: every unit with a scored row is decided exactly once, as shared or as one exclusion;
   every unscored row has its own exclusion; nothing else is excluded.
  */
  lemma {:induction false} CohortConserves(k: Cohort, p: Pairing, units: seq<Unit>, unitLe: (Unit, Unit) -> bool, u: Unit)
    requires IsCohort(k, p, units, unitLe)
    ensures SharedCount(k.shared, u) + ExclusionCount(UnitExclusions(p, units), u) ==
            (if u in ScoredUnits(p.rowsA, p.a) + ScoredUnits(p.rowsB, p.b) then 1 else 0)
    ensures |k.shared| + |k.exclusions| ==
            |units| + (|p.rowsA| - ScoredRows(p.rowsA, p.a)) + (|p.rowsB| - ScoredRows(p.rowsB, p.b))
  {
    UnitsAccount(p, units, u);
    RowsAccount(p.rowsA, p.a, A);
    RowsAccount(p.rowsB, p.b, B);
  }

  lemma {:induction false} SharedMembers(p: Pairing, units: seq<Unit>, x: Shared)
    ensures x in SharedOf(p, units) <==> x.unit in units && Fated(p, x.unit) == Kept(x)
  {
    hide Fated;
    if units != [] {
      SharedMembers(p, units[1..], x);
      FatedUnit(p, units[0]);
      assert x.unit in units <==> x.unit == units[0] || x.unit in units[1..];
    }
  }

  /** A unit is shared exactly when each contender has one scored row for it, and the pair is those two rows. */
  lemma {:induction false} SharedExactly(k: Cohort, p: Pairing, units: seq<Unit>, unitLe: (Unit, Unit) -> bool, x: Shared)
    requires IsCohort(k, p, units, unitLe)
    ensures x in k.shared <==> Bucket(p.rowsA, p.a, x.unit) == [x.a] && Bucket(p.rowsB, p.b, x.unit) == [x.b]
  {
    hide Bucket;
    SharedMembers(p, units, x);
    BucketMembers(p.rowsA, p.a, x.unit);
    BucketMembers(p.rowsB, p.b, x.unit);
  }

  lemma {:induction false} NoRowMismatch(rows: seq<Evaluation>, c: Contender, who: Who)
    requires AllAgree(rows, c)
    ensures forall x :: x in RowExclusions(rows, c, who) ==> x.reason.NotEligible?
  {
    hide Capable;
    if rows != [] {
      assert rows[0] in rows;
      assert forall e :: e in rows[1..] ==> e in rows;
      NoRowMismatch(rows[1..], c, who);
    }
  }

  lemma {:induction false} NoUnitMismatch(p: Pairing, units: seq<Unit>)
    ensures forall x :: x in UnitExclusions(p, units) ==> x.reason != TargetVersionMismatch
  {
    hide Bucket;
    if units != [] {
      NoUnitMismatch(p, units[1..]);
    }
  }

  /** No cohort ever reports a target version mismatch: such a row is refused before it could be excluded. */
  lemma {:induction false} VersionMismatchUnreachable(k: Cohort, p: Pairing, units: seq<Unit>, unitLe: (Unit, Unit) -> bool, x: Exclusion)
    requires IsCohort(k, p, units, unitLe) && AllAgree(p.rowsA, p.a) && AllAgree(p.rowsB, p.b)
    requires x in k.exclusions
    ensures x.reason != TargetVersionMismatch
  {
    hide AllAgree, Bucket, UnitList;
    NoRowMismatch(p.rowsA, p.a, A);
    NoRowMismatch(p.rowsB, p.b, B);
    NoUnitMismatch(p, units);
  }

  // ----- swapping the contenders -----

  function SwapWho(w: Who): Who {
    if w == A then B else A
  }

  function MirrorReason(r: Reason): Reason {
    if r == AOnly then BOnly else if r == BOnly then AOnly else r
  }

  function MirrorExclusion(x: Exclusion): (r: Exclusion)
  {
    x.(reason := MirrorReason(x.reason), contender := match x.contender case Some(w) => Some(SwapWho(w)) case None => None)
  }

  lemma {:induction false} MirrorInjective(x: Exclusion, y: Exclusion)
    ensures MirrorExclusion(x) == MirrorExclusion(y) <==> x == y
  {
  }

  function MirrorShared(s: Shared): Shared {
    Shared(s.unit, s.b, s.a)
  }

  function MirrorAll(s: seq<Shared>): (r: seq<Shared>)
    ensures |r| == |s|
  {
    if s == [] then [] else [MirrorShared(s[0])] + MirrorAll(s[1..])
  }

  lemma {:induction false} FatedMirror(p: Pairing, u: Unit)
    requires u in ScoredUnits(p.rowsA, p.a) + ScoredUnits(p.rowsB, p.b)
    ensures Fated(Swapped(p), u) ==
            match Fated(p, u) case Kept(x) => Kept(MirrorShared(x)) case Excluded(x) => Excluded(MirrorExclusion(x))
  {
    hide Bucket, ScoredUnits;
    BucketMembers(p.rowsA, p.a, u);
    BucketMembers(p.rowsB, p.b, u);
  }

  lemma {:induction false} SharedMirror(p: Pairing, units: seq<Unit>)
    requires forall u :: u in units ==> u in ScoredUnits(p.rowsA, p.a) + ScoredUnits(p.rowsB, p.b)
    ensures SharedOf(Swapped(p), units) == MirrorAll(SharedOf(p, units))
  {
    hide Fated, ScoredUnits;
    if units != [] {
      var rest := units[1..];
      assert forall u :: u in rest ==> u in units;
      SharedMirror(p, rest);
      assert units[0] in units;
      FatedMirror(p, units[0]);
      match Fated(p, units[0]) {
        case Kept(x) => assert ([x] + SharedOf(p, rest))[1..] == SharedOf(p, rest);
        case Excluded(_) => assert [] + SharedOf(p, rest) == SharedOf(p, rest);
      }
    }
  }

  lemma {:induction false} UnitExclusionsMirror(p: Pairing, units: seq<Unit>, x: Exclusion)
    requires forall u :: u in units ==> u in ScoredUnits(p.rowsA, p.a) + ScoredUnits(p.rowsB, p.b)
    ensures multiset(UnitExclusions(Swapped(p), units))[MirrorExclusion(x)] == multiset(UnitExclusions(p, units))[x]
  {
    hide Fated, ScoredUnits, MirrorExclusion;
    if units != [] {
      var rest := units[1..];
      assert forall u :: u in rest ==> u in units;
      UnitExclusionsMirror(p, rest, x);
      assert units[0] in units;
      FatedMirror(p, units[0]);
      match Fated(p, units[0]) {
        case Kept(_) =>
        case Excluded(y) => MirrorInjective(x, y);
      }
    }
  }

  lemma {:induction false} RowExclusionsMirror(rows: seq<Evaluation>, c: Contender, who: Who, x: Exclusion)
    ensures multiset(RowExclusions(rows, c, SwapWho(who)))[MirrorExclusion(x)] == multiset(RowExclusions(rows, c, who))[x]
  {
    hide Scored, UnitOf;
    if rows != [] {
      RowExclusionsMirror(rows[1..], c, who, x);
      var e := rows[0];
      assert MirrorExclusion(RowExclusion(e, who)) == RowExclusion(e, SwapWho(who));
      MirrorInjective(x, RowExclusion(e, who));
    }
  }

  /** A pairing has one unit list, and its swap has the same one. */
  lemma {:induction false} UnitListUnique(p: Pairing, q: Pairing, x: seq<Unit>, y: seq<Unit>, unitLe: (Unit, Unit) -> bool)
    requires TotalOrder(unitLe) && UnitList(p, x, unitLe) && UnitList(q, y, unitLe)
    requires p == q || q == Swapped(p)
    ensures x == y
  {
    hide TotalOrder, ScoredUnits;
    forall u ensures multiset(x)[u] == multiset(y)[u] {
      DistinctCount(x, u);
      DistinctCount(y, u);
      assert u in x <==> u in y;
    }
    SortedUnique(x, y, unitLe);
  }

  lemma {:induction false} DistinctCount(units: seq<Unit>, u: Unit)
    requires Distinct(units)
    ensures multiset(units)[u] == if u in units then 1 else 0
  {
    if units != [] {
      DistinctCount(units[1..], u);
      assert units == [units[0]] + units[1..];
      assert units[0] !in units[1..];
    }
  }

  /** Swapping the contenders keeps the shared units in place, with the pair reversed, and mirrors every exclusion. */
  lemma {:induction false} SwapMirrors(k: Cohort, m: Cohort, p: Pairing, x: seq<Unit>, y: seq<Unit>, unitLe: (Unit, Unit) -> bool, e: Exclusion)
    requires TotalOrder(unitLe) && IsCohort(k, p, x, unitLe) && IsCohort(m, Swapped(p), y, unitLe)
    ensures m.shared == MirrorAll(k.shared)
    ensures multiset(m.exclusions)[MirrorExclusion(e)] == multiset(k.exclusions)[e]
  {
    hide TotalOrder, SharedOf, UnitExclusions, RowExclusions, ScoredUnits, MirrorExclusion;
    UnitListUnique(p, Swapped(p), x, y, unitLe);
    SharedMirror(p, x);
    UnitExclusionsMirror(p, x, e);
    RowExclusionsMirror(p.rowsA, p.a, A, e);
    RowExclusionsMirror(p.rowsB, p.b, B, e);
  }

  // ----- from the store's rows to the cohort -----

  predicate InWindow(e: Evaluation, c: Contender, start: int, end: int) {
    && e.agentId == c.agentId && e.agentVersion == c.agentVersion && e.policy == c.policy
    && start <= e.evaluatedAt <= end && (c.family == None || e.marketFamily == c.family)
  }

  function WindowRows(rows: seq<Evaluation>, c: Contender, start: int, end: int): (r: seq<Evaluation>)
    ensures forall e :: e in r <==> e in rows && InWindow(e, c, start, end)
  {
    if rows == [] then []
    else
      assert rows == [rows[0]] + rows[1..];
      (if InWindow(rows[0], c, start, end) then [rows[0]] else []) + WindowRows(rows[1..], c, start, end)
  }

  /** The pairing of two contenders: the effective attempts of each within the window. */
  ghost predicate IsPairing(o: Orders, p: Pairing, rows: seq<Evaluation>, start: int, end: int) {
    && IsEffectiveList(o, p.rowsA, WindowRows(rows, p.a, start, end), p.a.policy)
    && IsEffectiveList(o, p.rowsB, WindowRows(rows, p.b, start, end), p.b.policy)
  }

  method CompareRows(
    o: Orders, unitLe: (Unit, Unit) -> bool, rows: seq<Evaluation>, a: Contender, b: Contender, start: int, end: int)
    returns (k: Option<Cohort>, p: Pairing, units: seq<Unit>)
    requires ValidOrders(o) && TotalOrder(unitLe)
    ensures p.a == a && p.b == b && IsPairing(o, p, rows, start, end)
    ensures k.Some? <==> AllAgree(p.rowsA, p.a) && AllAgree(p.rowsB, p.b)
    ensures k.Some? ==> IsCohort(k.value, p, units, unitLe)
  {
    hide TotalOrder, ValidOrders, IsEffectiveList, AllAgree, IsCohort;
    var rowsA := EffectiveEvaluations(o, WindowRows(rows, a, start, end), a.policy);
    var rowsB := EffectiveEvaluations(o, WindowRows(rows, b, start, end), b.policy);
    p := Pairing(rowsA, rowsB, a, b);
    k, units := BuildCohort(unitLe, p);
  }

  /** The cohort of a store does not depend on the order in which its rows are read. */
  lemma {:induction false} CohortOrderIndependent(
    o: Orders, unitLe: (Unit, Unit) -> bool, rows: seq<Evaluation>, other: seq<Evaluation>, start: int, end: int,
    p: Pairing, q: Pairing, x: seq<Unit>, y: seq<Unit>, k: Cohort, m: Cohort)
    requires ValidOrders(o) && TotalOrder(unitLe) && IdsDetermineRows(rows) && multiset(rows) == multiset(other)
    requires p.a == q.a && p.b == q.b && IsPairing(o, p, rows, start, end) && IsPairing(o, q, other, start, end)
    requires IsCohort(k, p, x, unitLe) && IsCohort(m, q, y, unitLe)
    ensures k == m
  {
    hide TotalOrder, ValidOrders, IsEffectiveList, UnitList, RowExclusions, SharedOf, UnitExclusions;
    forall e ensures e in rows <==> e in other {
      assert e in multiset(rows) <==> e in multiset(other);
    }
    EffectiveListOrderIndependent(
      o, p.rowsA, q.rowsA, WindowRows(rows, p.a, start, end), WindowRows(other, p.a, start, end), p.a.policy);
    EffectiveListOrderIndependent(
      o, p.rowsB, q.rowsB, WindowRows(rows, p.b, start, end), WindowRows(other, p.b, start, end), p.b.policy);
    UnitListUnique(p, q, x, y, unitLe);
  }

  // ----- metrics -----

  function BrierOf(e: Evaluation): real {
    if e.metrics.modelBrier.Some? then e.metrics.modelBrier.value else 0.0
  }

  function SumA(s: seq<Shared>): real {
    if s == [] then 0.0 else BrierOf(s[0].a) + SumA(s[1..])
  }

  function SumB(s: seq<Shared>): real {
    if s == [] then 0.0 else BrierOf(s[0].b) + SumB(s[1..])
  }

  function SumDifference(s: seq<Shared>): real {
    if s == [] then 0.0 else (BrierOf(s[0].a) - BrierOf(s[0].b)) + SumDifference(s[1..])
  }

  datatype PairMetrics = PairMetrics(count: nat, meanA: real, meanB: real, meanDifference: real)

  function Metrics(s: seq<Shared>): PairMetrics
    requires s != []
  {
    PairMetrics(|s|, SumA(s) / |s| as real, SumB(s) / |s| as real, SumDifference(s) / |s| as real)
  }

  lemma {:induction false} SumsAgree(s: seq<Shared>)
    ensures SumDifference(s) == SumA(s) - SumB(s)
    ensures SumA(MirrorAll(s)) == SumB(s) && SumB(MirrorAll(s)) == SumA(s)
  {
    hide BrierOf;
    if s != [] {
      SumsAgree(s[1..]);
      assert MirrorAll(s)[1..] == MirrorAll(s[1..]);
    }
  }

  lemma {:induction false} QuotientDifference(x: real, y: real, n: real)
    requires n != 0.0
    ensures (x - y) / n == x / n - y / n && (y - x) / n == -((x - y) / n)
  {
  }

  /** The mean of differences is the difference of means, and swapping the contenders negates it. */
  lemma {:induction false} MetricsAntisymmetric(s: seq<Shared>)
    requires s != []
    ensures Metrics(s).meanDifference == Metrics(s).meanA - Metrics(s).meanB
    ensures Metrics(MirrorAll(s)).meanDifference == -Metrics(s).meanDifference
    ensures Metrics(MirrorAll(s)).meanA == Metrics(s).meanB && Metrics(MirrorAll(s)).meanB == Metrics(s).meanA
  {
    hide SumA, SumB, SumDifference;
    SumsAgree(s);
    SumsAgree(MirrorAll(s));
    QuotientDifference(SumA(s), SumB(s), |s| as real);
  }

  lemma {:induction false} SumsConcat(s: seq<Shared>, t: seq<Shared>)
    ensures SumA(s + t) == SumA(s) + SumA(t) && SumB(s + t) == SumB(s) + SumB(t)
  {
    hide BrierOf;
    if s == [] {
      assert s + t == t;
    } else {
      SumsConcat(s[1..], t);
      assert (s + t)[1..] == s[1..] + t;
    }
  }

  lemma {:induction false} TimesQuotient(x: real, n: real)
    requires n != 0.0
    ensures (x / n) * n == x
  {
  }

  lemma {:induction false} OnePair(x: Shared)
    ensures SumA([x]) == BrierOf(x.a) && SumB([x]) == BrierOf(x.b)
  {
    assert [x][1..] == [];
    assert SumA([]) == 0.0 && SumB([]) == 0.0;
    hide BrierOf;
  }

  /** The means are means: the scores of each side's pairs summed, over their number. */
  lemma {:induction false} MeansExactly(s: seq<Shared>, x: Shared)
    requires s != []
    ensures Metrics(s).count == |s|
    ensures Metrics(s).meanA * |s| as real == SumA(s) && Metrics(s).meanB * |s| as real == SumB(s)
    ensures SumA(s + [x]) == SumA(s) + BrierOf(x.a) && SumB(s + [x]) == SumB(s) + BrierOf(x.b)
    ensures SumA([]) == 0.0 && SumB([]) == 0.0
  {
    assert SumA([]) == 0.0 && SumB([]) == 0.0;
    hide BrierOf, SumA, SumB, SumDifference;
    OnePair(x);
    SumsConcat(s, [x]);
    TimesQuotient(SumA(s), |s| as real);
    TimesQuotient(SumB(s), |s| as real);
  }

  /** Every shared pair carries both scores, so the metrics never find one missing. */
  lemma {:induction false} SharedBriers(p: Pairing, units: seq<Unit>)
    requires AllAgree(p.rowsA, p.a) && AllAgree(p.rowsB, p.b)
    ensures forall x :: x in SharedOf(p, units) ==> x.a.metrics.modelBrier.Some? && x.b.metrics.modelBrier.Some?
    ensures forall x :: x in SharedOf(p, units) ==>
              BrierOf(x.a) == x.a.metrics.modelBrier.value && BrierOf(x.b) == x.b.metrics.modelBrier.value
  {
    hide Capable, Bucket;
    forall x | x in SharedOf(p, units) ensures x.a.metrics.modelBrier.Some? && x.b.metrics.modelBrier.Some? {
      SharedMembers(p, units, x);
      BucketMembers(p.rowsA, p.a, x.unit);
      BucketMembers(p.rowsB, p.b, x.unit);
      assert x.a in Bucket(p.rowsA, p.a, x.unit) && x.b in Bucket(p.rowsB, p.b, x.unit);
      assert Agrees(x.a, p.a) && Agrees(x.b, p.b);
    }
  }
}
