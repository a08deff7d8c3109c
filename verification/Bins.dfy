/** Sibling bins: an adjacency scan of sorted intervals decides whether they tile a range of the reals. */
module Bins {
  import opened Ordering

  datatype Option<+T> = None | Some(value: T)

  datatype Comparator = Between | LessThan | AtLeast | Unsupported

  datatype Spec = Spec(
    ticker: string, comparator: Comparator, lower: Option<real>, upper: Option<real>, threshold: Option<real>)

  datatype Bound = NegativeInfinity | Finite(value: real) | Infinity

  predicate Below(a: Bound, b: Bound) {
    match a
    case NegativeInfinity => b != NegativeInfinity
    case Finite(x) => b == Infinity || (b.Finite? && x < b.value)
    case Infinity => false
  }

  predicate AtMost(a: Bound, b: Bound) {
    a == b || Below(a, b)
  }

  /** The half-open range a market settles on. */
  datatype Interval = Interval(lower: Bound, upper: Bound, ticker: string)

  predicate Covers(i: Interval, x: real) {
    AtMost(i.lower, Finite(x)) && Below(Finite(x), i.upper)
  }

  datatype Status = Complete | Gap | Overlap | NotSupported

  datatype Relationship = Relationship(tickers: seq<string>, status: Status)

  function IntervalOf(s: Spec): Option<Interval> {
    match s.comparator
    case Between =>
      if s.lower.Some? && s.upper.Some? then Some(Interval(Finite(s.lower.value), Finite(s.upper.value), s.ticker)) else None
    case LessThan =>
      if s.threshold.Some? then Some(Interval(NegativeInfinity, Finite(s.threshold.value), s.ticker)) else None
    case AtLeast =>
      if s.threshold.Some? then Some(Interval(Finite(s.threshold.value), Infinity, s.ticker)) else None
    case Unsupported => None
  }

  predicate AllSupported(specs: seq<Spec>) {
    forall s :: s in specs ==> IntervalOf(s).Some?
  }

  function Intervals(specs: seq<Spec>): (r: seq<Interval>)
    requires AllSupported(specs)
    ensures |r| == |specs|
  {
    if specs == [] then [] else [IntervalOf(specs[0]).value] + Intervals(specs[1..])
  }

  /** Python's order on (lower, upper, ticker) triples. */
  predicate IntervalLe(a: Interval, b: Interval) {
    || Below(a.lower, b.lower)
    || (a.lower == b.lower && (Below(a.upper, b.upper) || (a.upper == b.upper && TextLe(a.ticker, b.ticker))))
  }

  lemma {:induction false} IntervalLeIsTotalOrder()
    ensures TotalOrder(IntervalLe)
  {
    hide TextLe;
    forall a, b ensures IntervalLe(a, b) || IntervalLe(b, a)
      ensures IntervalLe(a, b) && IntervalLe(b, a) ==> a == b {
      TextLeTotal(a.ticker, b.ticker);
    }
    forall a, b, c | IntervalLe(a, b) && IntervalLe(b, c) ensures IntervalLe(a, c) {
      if TextLe(a.ticker, b.ticker) && TextLe(b.ticker, c.ticker) {
        TextLeTransitive(a.ticker, b.ticker, c.ticker);
      }
    }
  }

  /** The first neighbours that do not meet. */
  function FirstDefect(s: seq<Interval>): Status {
    if |s| < 2 then Complete
    else if Below(s[0].upper, s[1].lower) then Gap
    else if Below(s[1].lower, s[0].upper) then Overlap
    else FirstDefect(s[1..])
  }

  function Tickers(s: seq<Interval>): seq<string> {
    if s == [] then [] else [s[0].ticker] + Tickers(s[1..])
  }

  function SpecTickers(s: seq<Spec>): seq<string> {
    if s == [] then [] else [s[0].ticker] + SpecTickers(s[1..])
  }

  function Sorted(specs: seq<Spec>): seq<Interval>
    requires AllSupported(specs)
  {
    Sort(Intervals(specs), IntervalLe)
  }

  /** What `validate_bins` decides. */
  function Relation(specs: seq<Spec>): Relationship {
    if specs == [] || !AllSupported(specs) then Relationship(SpecTickers(specs), NotSupported)
    else Relationship(Tickers(Sorted(specs)), FirstDefect(Sorted(specs)))
  }

  lemma {:induction false} IntervalsAppend(specs: seq<Spec>, s: Spec)
    requires AllSupported(specs + [s])
    ensures AllSupported(specs) && IntervalOf(s).Some?
    ensures Intervals(specs + [s]) == Intervals(specs) + [IntervalOf(s).value]
  {
    hide IntervalOf;
    assert forall t :: t in specs ==> t in specs + [s];
    assert s in specs + [s];
    if specs == [] {
      assert [] + [s] == [s] && [s][1..] == [];
    } else {
      assert (specs + [s])[1..] == specs[1..] + [s];
      IntervalsAppend(specs[1..], s);
    }
  }

  /** The scan of neighbours. */
  method Scan(s: seq<Interval>) returns (status: Status)
    ensures status == FirstDefect(s)
  {
    hide Below;
    var i := 0;
    while i + 1 < |s|
      invariant 0 <= i && (s == [] ==> i == 0) && (s != [] ==> i < |s|)
      invariant FirstDefect(s[i..]) == FirstDefect(s)
      decreases |s| - i
    {
      if Below(s[i].upper, s[i + 1].lower) {
        return Gap;
      }
      if Below(s[i + 1].lower, s[i].upper) {
        return Overlap;
      }
      assert s[i..][1..] == s[i + 1..];
      i := i + 1;
    }
    return Complete;
  }

  method ValidateBins(specs: seq<Spec>) returns (r: Relationship)
    ensures r == Relation(specs)
  {
    hide IntervalOf, IntervalLe;
    if specs == [] {
      return Relationship([], NotSupported);
    }
    var intervals: seq<Interval> := [];
    var i := 0;
    while i < |specs|
      invariant 0 <= i <= |specs|
      invariant AllSupported(specs[..i]) && intervals == Intervals(specs[..i])
    {
      var interval := IntervalOf(specs[i]);
      if interval == None {
        return Relationship(SpecTickers(specs), NotSupported);
      }
      assert specs[..i + 1] == specs[..i] + [specs[i]];
      IntervalsAppend(specs[..i], specs[i]);
      intervals := intervals + [interval.value];
      i := i + 1;
    }
    assert specs[..i] == specs;
    var sorted := Sort(intervals, IntervalLe);
    var status := Scan(sorted);
    return Relationship(Tickers(sorted), status);
  }

  // ----- what the status says about the reals -----

  /** How many intervals contain a point. */
  function Coverage(s: seq<Interval>, x: real): nat {
    if s == [] then 0 else (if Covers(s[0], x) then 1 else 0) + Coverage(s[1..], x)
  }

  ghost predicate Ascending(s: seq<Interval>) {
    forall i, j :: 0 <= i < j < |s| ==> AtMost(s[i].lower, s[j].lower)
  }

  /** No bin is empty or inverted. */
  ghost predicate Proper(s: seq<Interval>) {
    forall i :: 0 <= i < |s| ==> Below(s[i].lower, s[i].upper)
  }

  /** Between the first lower bound and the last upper bound. */
  ghost predicate InSpan(s: seq<Interval>, x: real)
    requires s != []
  {
    AtMost(s[0].lower, Finite(x)) && Below(Finite(x), s[|s| - 1].upper)
  }

  lemma {:induction false} NothingBelow(s: seq<Interval>, x: real)
    requires forall i :: 0 <= i < |s| ==> Below(Finite(x), s[i].lower)
    ensures Coverage(s, x) == 0
  {
    if s != [] {
      NothingBelow(s[1..], x);
    }
  }

  lemma {:induction false} CompleteTiles(s: seq<Interval>, x: real)
    requires s != [] && Ascending(s) && FirstDefect(s) == Complete && InSpan(s, x)
    ensures Coverage(s, x) == 1
  {
    if |s| > 1 {
      var rest := s[1..];
      if Below(Finite(x), s[0].upper) {
        forall i | 0 <= i < |rest| ensures Below(Finite(x), rest[i].lower) {
          assert AtMost(s[1].lower, s[i + 1].lower);
        }
        NothingBelow(rest, x);
      } else {
        CompleteTiles(rest, x);
      }
    }
  }

  lemma {:induction false} GapPoint(s: seq<Interval>) returns (x: real)
    requires s != [] && Ascending(s) && Proper(s) && FirstDefect(s) == Gap
    ensures InSpan(s, x) && Coverage(s, x) == 0
  {
    var rest := s[1..];
    var last := s[|s| - 1];
    assert AtMost(s[1].lower, last.lower) && Below(last.lower, last.upper);
    if Below(s[0].upper, s[1].lower) {
      x := s[0].upper.value;
      forall i | 0 <= i < |rest| ensures Below(Finite(x), rest[i].lower) {
        assert AtMost(s[1].lower, s[i + 1].lower);
      }
      NothingBelow(rest, x);
    } else {
      x := GapPoint(rest);
    }
  }

  function Least(a: Bound, b: Bound): Bound {
    if Below(a, b) then a else b
  }

  function PointIn(lower: Bound, upper: Bound): (x: real)
    requires Below(lower, upper)
    ensures AtMost(lower, Finite(x)) && Below(Finite(x), upper)
  {
    if lower.Finite? then lower.value else if upper.Finite? then upper.value - 1.0 else 0.0
  }

  lemma {:induction false} OverlapPoint(s: seq<Interval>) returns (x: real)
    requires s != [] && Ascending(s) && Proper(s) && FirstDefect(s) == Overlap
    ensures InSpan(s, x) && Coverage(s, x) >= 2
  {
    var rest := s[1..];
    var last := s[|s| - 1];
    assert AtMost(s[0].lower, s[1].lower);
    assert AtMost(s[1].lower, last.lower) && Below(last.lower, last.upper);
    if Below(s[1].lower, s[0].upper) {
      x := PointIn(s[1].lower, Least(Least(s[0].upper, s[1].upper), last.upper));
      assert Covers(s[0], x) && Covers(rest[0], x);
    } else {
      x := OverlapPoint(rest);
    }
  }

  lemma {:induction false} SortedAscends(specs: seq<Spec>)
    requires AllSupported(specs)
    ensures Ascending(Sorted(specs)) && |Sorted(specs)| == |specs|
  {
    IntervalLeIsTotalOrder();
    SortSorts(Intervals(specs), IntervalLe);
    var s := Sorted(specs);
    forall i, j | 0 <= i < j < |s| ensures AtMost(s[i].lower, s[j].lower) {
      assert IntervalLe(s[i], s[j]);
    }
  }

  lemma {:induction false} StatusOfSorted(s: seq<Interval>)
    requires s != [] && Ascending(s) && Proper(s)
    ensures FirstDefect(s) == Complete <==> forall x :: InSpan(s, x) ==> Coverage(s, x) == 1
    ensures FirstDefect(s) == Gap ==> exists x :: InSpan(s, x) && Coverage(s, x) == 0
    ensures FirstDefect(s) == Overlap ==> exists x :: InSpan(s, x) && Coverage(s, x) >= 2
  {
    hide InSpan, Proper, Ascending;
    NeverUnsupported(s);
    match FirstDefect(s) {
      case Complete =>
        forall x | InSpan(s, x) ensures Coverage(s, x) == 1 {
          CompleteTiles(s, x);
        }
      case Gap => var x := GapPoint(s);
      case Overlap => var x := OverlapPoint(s);
    }
  }

  lemma {:induction false} NeverUnsupported(s: seq<Interval>)
    ensures FirstDefect(s) != NotSupported
  {
    if |s| >= 2 {
      NeverUnsupported(s[1..]);
    }
  }

  lemma {:induction false} InsertCoverage(i: Interval, s: seq<Interval>, x: real)
    ensures Coverage(Insert(i, s, IntervalLe), x) == Coverage([i] + s, x)
  {
    hide Covers, IntervalLe;
    assert ([i] + s)[1..] == s;
    if s != [] && !IntervalLe(i, s[0]) {
      InsertCoverage(i, s[1..], x);
      assert ([s[0]] + Insert(i, s[1..], IntervalLe))[1..] == Insert(i, s[1..], IntervalLe);
      assert ([i] + s[1..])[1..] == s[1..];
    }
  }

  /** Sorting does not change how many bins hold a point, so the statements above are about the bins as given. */
  lemma {:induction false} SortCoverage(s: seq<Interval>, x: real)
    ensures Coverage(Sort(s, IntervalLe), x) == Coverage(s, x)
  {
    hide Covers, IntervalLe;
    if s != [] {
      SortCoverage(s[1..], x);
      InsertCoverage(s[0], Sort(s[1..], IntervalLe), x);
      assert ([s[0]] + Sort(s[1..], IntervalLe))[1..] == Sort(s[1..], IntervalLe);
    }
  }

  /**
   For proper bins: COMPLETE exactly when every point of the span lies in exactly one bin; GAP gives a point
   of the span in no bin, OVERLAP one in at least two.
  */
  lemma {:induction false} StatusMeaning(specs: seq<Spec>)
    requires specs != [] && AllSupported(specs) && Proper(Sorted(specs))
    ensures Sorted(specs) != []
    ensures Relation(specs).status == Complete <==>
            forall x :: InSpan(Sorted(specs), x) ==> Coverage(Intervals(specs), x) == 1
    ensures Relation(specs).status == Gap ==> exists x :: InSpan(Sorted(specs), x) && Coverage(Intervals(specs), x) == 0
    ensures Relation(specs).status == Overlap ==> exists x :: InSpan(Sorted(specs), x) && Coverage(Intervals(specs), x) >= 2
  {
    hide Proper, InSpan, Ascending, IntervalLe, Covers;
    SortedAscends(specs);
    StatusOfSorted(Sorted(specs));
    forall x ensures Coverage(Sorted(specs), x) == Coverage(Intervals(specs), x) {
      SortCoverage(Intervals(specs), x);
    }
  }

  lemma {:induction false} EmptyIntervalOverlaps(outer: Interval, inner: Interval, x: real)
    requires inner.lower == inner.upper && Below(outer.lower, inner.lower) && Below(inner.lower, outer.upper)
    ensures SortedBy([outer, inner], IntervalLe) && FirstDefect([outer, inner]) == Overlap
    ensures Coverage([outer, inner], x) <= 1
  {
    hide TextLe;
    assert [outer, inner][1..] == [inner] && [inner][1..] == [];
    assert !Covers(inner, x);
    assert Coverage([inner], x) == 0;
  }

  /** Sorting two intervals that are already in order. */
  lemma {:induction false} SortedPair(a: Interval, b: Interval)
    requires IntervalLe(a, b)
    ensures Sort([a, b], IntervalLe) == [a, b]
  {
    hide IntervalLe;
    assert [a, b][1..] == [b] && [b][1..] == [];
    assert Sort([b], IntervalLe) == Insert(b, [], IntervalLe) == [b];
  }

  lemma {:induction false} PairIntervals(a: Spec, b: Spec)
    requires IntervalOf(a).Some? && IntervalOf(b).Some?
    ensures AllSupported([a, b]) && Intervals([a, b]) == [IntervalOf(a).value, IntervalOf(b).value]
  {
    hide IntervalOf;
    assert [a, b][1..] == [b] && [b][1..] == [];
    assert AllSupported([b]) && Intervals([b]) == [IntervalOf(b).value] + Intervals([]);
  }

  /** Properness is needed: an empty bin inside another is called an overlap although no point lies in both. */
  lemma {:induction false} EmptyBinOverlaps(a: string, b: string, low: real, at: real, high: real)
    requires low < at < high
    ensures var specs := [Spec(a, Between, Some(low), Some(high), None), Spec(b, Between, Some(at), Some(at), None)];
            && Relation(specs) == Relationship([a, b], Overlap)
            && AllSupported(specs) && forall x :: Coverage(Intervals(specs), x) <= 1
  {
    hide TextLe, Coverage, FirstDefect, Sort;
    var outer, inner := Spec(a, Between, Some(low), Some(high), None), Spec(b, Between, Some(at), Some(at), None);
    var i, j := Interval(Finite(low), Finite(high), a), Interval(Finite(at), Finite(at), b);
    assert IntervalOf(outer) == Some(i) && IntervalOf(inner) == Some(j);
    PairIntervals(outer, inner);
    SortedPair(i, j);
    assert [i, j][1..] == [j] && [j][1..] == [];
    assert Tickers([j]) == [b];
    forall x ensures Coverage([i, j], x) <= 1 && FirstDefect([i, j]) == Overlap {
      EmptyIntervalOverlaps(i, j, x);
    }
    EmptyIntervalOverlaps(i, j, at);
  }

  // ----- order independence -----

  function StandsFor(i: Interval): Spec -> bool {
    s => IntervalOf(s) == Some(i)
  }

  lemma {:induction false} IntervalCount(specs: seq<Spec>, i: Interval)
    requires AllSupported(specs)
    ensures multiset(Intervals(specs))[i] == Count(specs, StandsFor(i))
  {
    hide IntervalOf;
    if specs != [] {
      IntervalCount(specs[1..], i);
    }
  }

  /** The verdict does not depend on the order of the specs, nor does the market list of a supported event. */
  lemma {:induction false} RelationOrderIndependent(a: seq<Spec>, b: seq<Spec>)
    requires multiset(a) == multiset(b)
    ensures Relation(a).status == Relation(b).status
    ensures Relation(a).status != NotSupported ==> Relation(a) == Relation(b)
  {
    hide IntervalOf, IntervalLe, FirstDefect;
    forall s ensures s in a <==> s in b {
      assert s in multiset(a) <==> s in multiset(b);
    }
    assert a == [] <==> b == [] by {
      assert |a| == |multiset(a)| == |multiset(b)| == |b|;
    }
    if a != [] && AllSupported(a) {
      assert AllSupported(b);
      SortedAgree(a, b);
      NeverUnsupported(Sorted(a));
    }
  }

  lemma {:induction false} SortedAgree(a: seq<Spec>, b: seq<Spec>)
    requires multiset(a) == multiset(b) && AllSupported(a) && AllSupported(b)
    ensures Sorted(a) == Sorted(b)
  {
    hide IntervalOf, IntervalLe, TotalOrder, AllSupported;
    forall i ensures multiset(Intervals(a))[i] == multiset(Intervals(b))[i] {
      IntervalCount(a, i);
      IntervalCount(b, i);
      CountBag(a, b, StandsFor(i));
    }
    assert multiset(Intervals(a)) == multiset(Intervals(b));
    IntervalLeIsTotalOrder();
    SortSortsTotally(Intervals(a));
    SortSortsTotally(Intervals(b));
    SortedUnique(Sorted(a), Sorted(b), IntervalLe);
  }

  lemma {:induction false} SortSortsTotally(s: seq<Interval>)
    ensures SortedBy(Sort(s, IntervalLe), IntervalLe)
  {
    hide IntervalLe;
    IntervalLeIsTotalOrder();
    SortSorts(s, IntervalLe);
  }

  // ----- what a spec settles on -----

  /** Each comparator's own range; a spec without the bounds it needs is not supported. */
  lemma {:induction false} SpecMeaning(s: Spec, x: real)
    ensures IntervalOf(s).Some? <==>
            match s.comparator
            case Between => s.lower.Some? && s.upper.Some?
            case LessThan => s.threshold.Some?
            case AtLeast => s.threshold.Some?
            case Unsupported => false
    ensures IntervalOf(s).Some? ==>
              IntervalOf(s).value.ticker == s.ticker &&
              (Covers(IntervalOf(s).value, x) <==>
               match s.comparator
               case Between => s.lower.value <= x < s.upper.value
               case LessThan => x < s.threshold.value
               case AtLeast => s.threshold.value <= x
               case Unsupported => false)
  {
  }
}
