/** Fee authority timelines: a pairwise adjacency loop that decides a statement about every date. */
module FeeTimeline {
  datatype Option<+T> = None | Some(value: T)

  /** A regime over [start, end); an absent bound is unbounded. Dates are day numbers. */
  datatype Regime = Regime(
    start: Option<int>, end: Option<int>, status: string, authority: bool, usable: bool,
    formula: Option<string>, rounding: Option<string>)

  datatype Verdict = Accepted | GapOrOverlap | InvalidInterval | Consumable | NotOpenEnded

  const EXACT := "exact"

  /** An interval with both bounds runs forward. */
  predicate Forward(r: Regime) {
    r.start.Some? && r.end.Some? ==> r.start.value < r.end.value
  }

  /** Only an exact regime may be acted on. */
  predicate Safe(r: Regime) {
    r.status == EXACT || (!r.authority && !r.usable && r.formula == None && r.rounding == None)
  }

  /** The first defect of the rest of a timeline, when the rows before it ended at `previous`. */
  function FirstDefect(rows: seq<Regime>, previous: Option<int>): Verdict {
    if rows == [] then (if previous == None then Accepted else NotOpenEnded)
    else if rows[0].start != previous then GapOrOverlap
    else if !Forward(rows[0]) then InvalidInterval
    else if !Safe(rows[0]) then Consumable
    else FirstDefect(rows[1..], rows[0].end)
  }

  /** The adjacency loop of `_validate`. */
  method CheckTimeline(rows: seq<Regime>) returns (v: Verdict)
    ensures v == FirstDefect(rows, None)
  {
    hide Forward, Safe;
    var previous: Option<int> := None;
    var i := 0;
    while i < |rows|
      invariant 0 <= i <= |rows|
      invariant FirstDefect(rows, None) == FirstDefect(rows[i..], previous)
    {
      var row := rows[i];
      if row.start != previous {
        return GapOrOverlap;
      }
      if !Forward(row) {
        return InvalidInterval;
      }
      if !Safe(row) {
        return Consumable;
      }
      previous := row.end;
      i := i + 1;
    }
    if previous != None {
      return NotOpenEnded;
    }
    return Accepted;
  }

  /** What the row that starts a timeline's rest is refused for, when the rows before it ended at `previous`. */
  predicate RowDefect(r: Regime, previous: Option<int>, v: Verdict) {
    var backward := r.start.Some? && r.end.Some? && r.end.value <= r.start.value;
    var consumable := r.status != "exact" && (r.authority || r.usable || r.formula.Some? || r.rounding.Some?);
    match v
    case GapOrOverlap => r.start != previous
    case InvalidInterval => r.start == previous && backward
    case Consumable => r.start == previous && !backward && consumable
    case _ => false
  }

  predicate RowSound(r: Regime, previous: Option<int>) {
    && r.start == previous
    && (r.start.Some? && r.end.Some? ==> r.start.value < r.end.value)
    && (r.status != "exact" ==> !r.authority && !r.usable && r.formula == None && r.rounding == None)
  }

  function EndBefore(rows: seq<Regime>, previous: Option<int>, i: nat): Option<int>
    requires i <= |rows|
  {
    if i == 0 then previous else rows[i - 1].end
  }

  ghost predicate SoundUpTo(rows: seq<Regime>, previous: Option<int>, n: nat)
    requires n <= |rows|
  {
    forall i :: 0 <= i < n ==> RowSound(rows[i], EndBefore(rows, previous, i))
  }

  lemma {:induction false} SoundTail(rows: seq<Regime>, previous: Option<int>, n: nat)
    requires rows != [] && RowSound(rows[0], previous) && n < |rows|
    ensures SoundUpTo(rows, previous, n + 1) <==> SoundUpTo(rows[1..], rows[0].end, n)
  {
    hide RowSound;
    var rest := rows[1..];
    forall i | 0 <= i < n ensures EndBefore(rest, rows[0].end, i) == EndBefore(rows, previous, i + 1) && rest[i] == rows[i + 1] {
    }
    if SoundUpTo(rest, rows[0].end, n) {
      forall i | 0 <= i < n + 1 ensures RowSound(rows[i], EndBefore(rows, previous, i)) {
        if i > 0 {
          assert rest[i - 1] == rows[i] && EndBefore(rest, rows[0].end, i - 1) == EndBefore(rows, previous, i);
        }
      }
    }
  }

  /** The verdict is the first defect of the first unsound row, or that the last regime is not open-ended. */
  lemma {:induction false} DefectExactly(rows: seq<Regime>, previous: Option<int>, v: Verdict)
    ensures FirstDefect(rows, previous) == v <==>
            match v
            case Accepted => SoundUpTo(rows, previous, |rows|) && EndBefore(rows, previous, |rows|) == None
            case NotOpenEnded => SoundUpTo(rows, previous, |rows|) && EndBefore(rows, previous, |rows|) != None
            case _ => exists i :: 0 <= i < |rows| && SoundUpTo(rows, previous, i) && RowDefect(rows[i], EndBefore(rows, previous, i), v)
  {
    if rows != [] {
      RowVerdict(rows, previous, v);
      var rest := rows[1..];
      hide RowSound, RowDefect, Forward, Safe, FirstDefect;
      if RowSound(rows[0], previous) {
        DefectExactly(rest, rows[0].end, v);
        SoundTail(rows, previous, |rest|);
        assert EndBefore(rows, previous, |rows|) == EndBefore(rest, rows[0].end, |rest|);
        DefectTail(rows, previous, v);
      } else {
        assert SoundUpTo(rows, previous, 0) && EndBefore(rows, previous, 0) == previous;
        forall n: nat | n <= |rows| && SoundUpTo(rows, previous, n) ensures n == 0 {
          FirstSound(rows, previous, n);
        }
      }
    }
  }

  lemma {:induction false} FirstSound(rows: seq<Regime>, previous: Option<int>, n: nat)
    requires rows != [] && n <= |rows| && SoundUpTo(rows, previous, n)
    ensures n > 0 ==> RowSound(rows[0], previous)
  {
    hide RowSound;
    assert EndBefore(rows, previous, 0) == previous;
  }

  lemma {:induction false} RowVerdict(rows: seq<Regime>, previous: Option<int>, v: Verdict)
    requires rows != []
    ensures RowSound(rows[0], previous) ==> FirstDefect(rows, previous) == FirstDefect(rows[1..], rows[0].end) && !RowDefect(rows[0], previous, v)
    ensures !RowSound(rows[0], previous) ==> (FirstDefect(rows, previous) == v <==> RowDefect(rows[0], previous, v))
  {
  }

  lemma {:induction false} DefectTail(rows: seq<Regime>, previous: Option<int>, v: Verdict)
    requires rows != [] && RowSound(rows[0], previous) && !RowDefect(rows[0], previous, v)
    ensures (exists i :: 0 <= i < |rows| && SoundUpTo(rows, previous, i) && RowDefect(rows[i], EndBefore(rows, previous, i), v)) <==>
            var rest, next := rows[1..], rows[0].end;
            exists i :: 0 <= i < |rest| && SoundUpTo(rest, next, i) && RowDefect(rest[i], EndBefore(rest, next, i), v)
  {
    hide RowSound, RowDefect, SoundUpTo;
    var rest, next := rows[1..], rows[0].end;
    if i :| 0 <= i < |rows| && SoundUpTo(rows, previous, i) && RowDefect(rows[i], EndBefore(rows, previous, i), v) {
      assert i > 0;
      SoundTail(rows, previous, i - 1);
      assert rest[i - 1] == rows[i] && EndBefore(rest, next, i - 1) == EndBefore(rows, previous, i);
    }
    if i :| 0 <= i < |rest| && SoundUpTo(rest, next, i) && RowDefect(rest[i], EndBefore(rest, next, i), v) {
      SoundTail(rows, previous, i);
      assert rest[i] == rows[i + 1] && EndBefore(rest, next, i) == EndBefore(rows, previous, i + 1);
    }
  }

  // ----- what acceptance means -----

  /** The match rule for a quote's date. */
  predicate Covers(r: Regime, date: int) {
    (r.start == None || date >= r.start.value) && (r.end == None || date < r.end.value)
  }

  function Matches(rows: seq<Regime>, date: int): seq<Regime> {
    if rows == [] then [] else (if Covers(rows[0], date) then [rows[0]] else []) + Matches(rows[1..], date)
  }

  function OpenEnded(rows: seq<Regime>): nat {
    if rows == [] then 0 else (if rows[0].end == None then 1 else 0) + OpenEnded(rows[1..])
  }

  function Before(date: int, bound: Option<int>): int {
    if bound.Some? && date < bound.value then 1 else 0
  }

  lemma {:induction false} MatchesFrom(rows: seq<Regime>, previous: Option<int>, date: int)
    requires FirstDefect(rows, previous) == Accepted
    ensures |Matches(rows, date)| == OpenEnded(rows) - Before(date, previous)
  {
    hide Safe;
    if rows != [] {
      MatchesFrom(rows[1..], rows[0].end, date);
    }
  }

  /** In an accepted timeline every date, past or future, matches as many regimes as are open-ended. */
  lemma {:induction false} AcceptedCountsOpenEnds(rows: seq<Regime>, date: int)
    requires FirstDefect(rows, None) == Accepted
    ensures |Matches(rows, date)| == OpenEnded(rows)
  {
    MatchesFrom(rows, None, date);
  }

  /** So one date with exactly one regime vouches for all dates, and one open-ended regime is what it takes. */
  lemma {:induction false} OneForAll(rows: seq<Regime>, date: int, other: int)
    requires FirstDefect(rows, None) == Accepted
    ensures |Matches(rows, date)| == 1 <==> |Matches(rows, other)| == 1
    ensures |Matches(rows, date)| == 1 <==> OpenEnded(rows) == 1
  {
    AcceptedCountsOpenEnds(rows, date);
    AcceptedCountsOpenEnds(rows, other);
  }

  /** The loop alone does not give that: it also accepts no rows at all, and two passes over all time. */
  lemma {:induction false} AcceptedWithoutUniqueness(date: int)
    ensures FirstDefect([], None) == Accepted && Matches([], date) == []
    ensures exists rows :: FirstDefect(rows, None) == Accepted && |Matches(rows, date)| == 2
  {
    var all := Regime(None, None, EXACT, true, true, None, None);
    var twice := [all, all];
    assert twice[1..] == [all] && [all][1..] == [];
    assert FirstDefect([all], None) == Accepted;
    assert FirstDefect(twice, None) == Accepted;
    AcceptedCountsOpenEnds(twice, date);
    assert OpenEnded([all]) == 1;
    assert OpenEnded(twice) == 2;
  }

  // ----- the converse: what a complete timeline must look like -----

  predicate StartsNoLater(a: Regime, b: Regime) {
    a.start == None || (b.start.Some? && a.start.value <= b.start.value)
  }

  ghost predicate WellFormed(rows: seq<Regime>) {
    && (forall i, j :: 0 <= i < j < |rows| ==> StartsNoLater(rows[i], rows[j]))
    && (forall i :: 0 <= i < |rows| ==> Forward(rows[i]) && Safe(rows[i]))
  }

  /** Exactly one regime covers each date from `from` on, and none covers an earlier date. */
  ghost predicate TilesFrom(rows: seq<Regime>, from: Option<int>) {
    forall date :: |Matches(rows, date)| == 1 - Before(date, from)
  }

  lemma {:induction false} NothingBefore(rows: seq<Regime>, date: int)
    requires forall i :: 0 <= i < |rows| ==> rows[i].start.Some? && date < rows[i].start.value
    ensures Matches(rows, date) == []
  {
    if rows != [] {
      NothingBefore(rows[1..], date);
    }
  }

  /** Every forward regime covers some date, as early as its start allows. */
  lemma {:induction false} CoversEarly(r: Regime, limit: int) returns (date: int)
    requires Forward(r)
    ensures Covers(r, date)
    ensures (r.start == None || r.start.value < limit) ==> date < limit
  {
    date := if r.start.Some? then r.start.value
            else if r.end.Some? && r.end.value < limit then r.end.value - 1
            else limit - 1;
  }

  lemma {:induction false} TileStarts(rows: seq<Regime>, from: Option<int>)
    requires WellFormed(rows) && TilesFrom(rows, from)
    ensures rows != [] && rows[0].start == from
  {
    hide Safe;
    var far := if from.Some? then from.value else 0;
    assert |Matches(rows, far)| == 1 - Before(far, from);
    var r := rows[0];
    var early := CoversEarly(r, far);
    assert |Matches(rows, early)| == 1 - Before(early, from);
    var gap := if from == None && r.start.Some? then r.start.value - 1 else far;
    assert |Matches(rows, gap)| == 1 - Before(gap, from);
    if r.start.Some? && gap < r.start.value {
      NothingBefore(rows, gap);
    }
  }

  lemma {:induction false} TileRest(rows: seq<Regime>, from: Option<int>)
    requires WellFormed(rows) && TilesFrom(rows, from)
    ensures rows != [] && rows[0].start == from
    ensures rows[0].end.Some? ==> TilesFrom(rows[1..], rows[0].end)
    ensures rows[0].end == None ==> rows[1..] == []
  {
    hide Safe;
    TileStarts(rows, from);
    var r, rest := rows[0], rows[1..];
    forall date ensures |Matches(rest, date)| == 1 - Before(date, r.end) - (if r.end == None then 1 else 0) {
      assert |Matches(rows, date)| == 1 - Before(date, from);
    }
    if rest != [] {
      assert Forward(rows[1]);
      var date := CoversEarly(rest[0], 0);
      assert |Matches(rest, date)| >= 1;
    }
  }

  lemma {:induction false} TilingAccepted(rows: seq<Regime>, from: Option<int>)
    requires WellFormed(rows) && TilesFrom(rows, from)
    ensures FirstDefect(rows, from) == Accepted && OpenEnded(rows) == 1
    decreases |rows|
  {
    hide TilesFrom, Covers, Safe, Forward, Matches;
    TileRest(rows, from);
    assert WellFormed(rows[1..]);
    if rows[0].end.Some? {
      TilingAccepted(rows[1..], rows[0].end);
    }
  }

  ghost predicate TilesAllTime(rows: seq<Regime>) {
    forall date :: |Matches(rows, date)| == 1
  }

  lemma {:induction false} SomeOpenEnd(rows: seq<Regime>)
    requires rows != [] && FirstDefect(rows, None) == Accepted
    ensures OpenEnded(rows) >= 1
  {
    hide Safe;
    var date := CoversEarly(rows[0], 0);
    AcceptedCountsOpenEnds(rows, date);
  }

  lemma {:induction false} AcceptedOrdered(rows: seq<Regime>, previous: Option<int>)
    requires FirstDefect(rows, previous) == Accepted && OpenEnded(rows) <= 1
    ensures WellFormed(rows)
  {
    hide Safe;
    if rows != [] {
      var rest := rows[1..];
      if rest != [] && rows[0].end == None {
        SomeOpenEnd(rest);
      }
      AcceptedOrdered(rest, rows[0].end);
      forall j | 1 <= j < |rows| ensures StartsNoLater(rows[0], rows[j]) {
        assert rows[j] == rest[j - 1] && (j == 1 || StartsNoLater(rest[0], rest[j - 1]));
      }
      forall i, j | 1 <= i < j < |rows| ensures StartsNoLater(rows[i], rows[j]) {
        assert rows[i] == rest[i - 1] && rows[j] == rest[j - 1];
      }
      forall i | 1 <= i < |rows| ensures Forward(rows[i]) && Safe(rows[i]) {
        assert rows[i] == rest[i - 1];
      }
    }
  }

  /** Accepted with one open end, if and only if the regimes run forward in start order, are safe, and tile all time. */
  lemma {:induction false} AcceptedIffTiling(rows: seq<Regime>)
    ensures WellFormed(rows) && TilesAllTime(rows) <==> FirstDefect(rows, None) == Accepted && OpenEnded(rows) == 1
  {
    hide WellFormed, Covers;
    if FirstDefect(rows, None) == Accepted && OpenEnded(rows) == 1 {
      AcceptedOrdered(rows, None);
      if !TilesAllTime(rows) {
        var date :| |Matches(rows, date)| != 1;
        AcceptedCountsOpenEnds(rows, date);
      }
    } else if WellFormed(rows) && TilesAllTime(rows) {
      assert TilesFrom(rows, None);
      TilingAccepted(rows, None);
    }
  }

  /** Whatever is not exact carries no authority, no usability and no formula or rounding to act on. */
  ghost predicate NoneConsumable(rows: seq<Regime>) {
    forall r :: r in rows && r.status != "exact" ==>
      !r.authority && !r.usable && r.formula == None && r.rounding == None
  }

  lemma {:induction false} AcceptedIsSafe(rows: seq<Regime>, previous: Option<int>)
    requires FirstDefect(rows, previous) == Accepted
    ensures NoneConsumable(rows)
  {
    hide Forward;
    if rows != [] {
      AcceptedIsSafe(rows[1..], rows[0].end);
      assert forall r :: r in rows ==> r == rows[0] || r in rows[1..];
    }
  }

  lemma {:induction false} MatchesMembers(rows: seq<Regime>, date: int)
    ensures forall r :: r in Matches(rows, date) <==> r in rows && Covers(r, date)
  {
    hide Covers;
    if rows != [] {
      MatchesMembers(rows[1..], date);
      assert forall r :: r in rows <==> r == rows[0] || r in rows[1..];
    }
  }

  // ----- matching quotes to regimes -----

  datatype Market = Market(ticker: string, event: string, date: int)

  datatype Coverage = Coverage(
    ticker: string, event: string, date: int, status: string,
    formula: Option<string>, rounding: Option<string>, usable: bool)

  datatype CoverageResult = Covered(rows: seq<Coverage>) | DuplicateMarket | AmbiguousRegime

  function CoverageOf(m: Market, r: Regime): Coverage {
    Coverage(m.ticker, m.event, m.date, r.status,
             if r.status == EXACT then r.formula else None, if r.status == EXACT then r.rounding else None, r.status == EXACT)
  }

  ghost predicate DistinctTickers(ms: seq<Market>) {
    forall i, j :: 0 <= i < j < |ms| ==> ms[i].ticker != ms[j].ticker
  }

  /** Row `i` describes market `i` under the one regime that covers its quote date. */
  ghost predicate CoversEach(rows: seq<Coverage>, ms: seq<Market>, taker: seq<Regime>) {
    && |rows| == |ms|
    && (forall i :: 0 <= i < |ms| ==>
          |Matches(taker, ms[i].date)| == 1 && rows[i] == CoverageOf(ms[i], Matches(taker, ms[i].date)[0]))
  }

  /** The market loop of `_validate`. */
  method CoverMarkets(taker: seq<Regime>, ms: seq<Market>) returns (r: CoverageResult)
    ensures r.Covered? <==> DistinctTickers(ms) && forall m :: m in ms ==> |Matches(taker, m.date)| == 1
    ensures r.Covered? ==> CoversEach(r.rows, ms, taker)
    ensures r.DuplicateMarket? ==> !DistinctTickers(ms)
    ensures r.AmbiguousRegime? ==> exists m :: m in ms && |Matches(taker, m.date)| != 1
  {
    hide Matches, CoverageOf;
    var rows: seq<Coverage> := [];
    var seen: set<string> := {};
    var i := 0;
    while i < |ms|
      invariant 0 <= i <= |ms|
      invariant forall t :: t in seen <==> exists k :: 0 <= k < i && ms[k].ticker == t
      invariant DistinctTickers(ms[..i])
      invariant CoversEach(rows, ms[..i], taker)
    {
      var market := ms[i];
      if market.ticker in seen {
        return DuplicateMarket;
      }
      seen := seen + {market.ticker};
      var matches := Matches(taker, market.date);
      if |matches| != 1 {
        assert market in ms;
        return AmbiguousRegime;
      }
      rows := rows + [CoverageOf(market, matches[0])];
      i := i + 1;
    }
    assert ms[..i] == ms;
    forall m | m in ms ensures |Matches(taker, m.date)| == 1 {
      var k :| 0 <= k < |ms| && ms[k] == m;
    }
    return Covered(rows);
  }

  /** With an accepted timeline, matching succeeds for one market exactly when it succeeds for any set of distinct ones. */
  lemma {:induction false} MatchingIsAllOrNothing(taker: seq<Regime>, ms: seq<Market>)
    requires FirstDefect(taker, None) == Accepted && ms != []
    ensures (forall m :: m in ms ==> |Matches(taker, m.date)| == 1) <==> OpenEnded(taker) == 1
  {
    hide FirstDefect, Matches, OpenEnded;
    forall m | m in ms ensures |Matches(taker, m.date)| == OpenEnded(taker) {
      AcceptedCountsOpenEnds(taker, m.date);
    }
    assert ms[0] in ms;
  }

  /** A market is usable only under an exact regime that covers its quote, and a formula is quoted only when usable. */
  lemma {:induction false} UsableMeansExact(rows: seq<Coverage>, ms: seq<Market>, taker: seq<Regime>, i: nat)
    requires CoversEach(rows, ms, taker) && i < |rows|
    ensures rows[i].ticker == ms[i].ticker && rows[i].event == ms[i].event && rows[i].date == ms[i].date
    ensures exists r :: r in taker && Covers(r, ms[i].date) && rows[i].status == r.status
                        && (rows[i].usable <==> r.status == EXACT)
                        && (rows[i].usable ==> rows[i].formula == r.formula && rows[i].rounding == r.rounding)
                        && (!rows[i].usable ==> rows[i].formula == None && rows[i].rounding == None)
                        && forall q :: q in taker && Covers(q, ms[i].date) ==> q == r
  {
    hide Covers;
    MatchesMembers(taker, ms[i].date);
    var matches := Matches(taker, ms[i].date);
    var r := matches[0];
    assert r in matches;
    assert forall q :: q in matches ==> q == r;
  }
}
