/** Which structural complaint is made of which sibling markets: each code's exact condition in their fields. */
module LadderCodes {
  import opened Ordering
  import opened Ladder

  ghost predicate TickersDiffer(rows: seq<Strike>) {
    forall i, j :: 0 <= i < j < |rows| ==> rows[i].ticker != rows[j].ticker
  }

  function Kinds(rows: seq<Strike>): (r: seq<StrikeType>)
    ensures |r| == |rows| && forall i :: 0 <= i < |rows| ==> r[i] == rows[i].kind
  {
    seq(|rows|, i requires 0 <= i < |rows| => rows[i].kind)
  }

  const LADDER_KINDS: multiset<StrikeType> := multiset{Less, Between, Between, Between, Between, Greater}

  function Tickers(rows: seq<Strike>): set<string> {
    set s | s in rows :: s.ticker
  }

  lemma {:induction false} NewTicker(rows: seq<Strike>, last: Strike)
    ensures last.ticker !in Tickers(rows) <==> forall i :: 0 <= i < |rows| ==> rows[i].ticker != last.ticker
    ensures TickersDiffer(rows + [last]) <==>
            TickersDiffer(rows) && forall i :: 0 <= i < |rows| ==> rows[i].ticker != last.ticker
  {
    var all := rows + [last];
    assert forall i :: 0 <= i < |rows| ==> all[i] == rows[i] && rows[i].ticker in Tickers(rows);
    if TickersDiffer(all) {
      forall i | 0 <= i < |rows| ensures rows[i].ticker != last.ticker {
        assert all[i].ticker != all[|rows|].ticker;
      }
    }
  }

  lemma {:induction false} DistinctExactly(rows: seq<Strike>)
    ensures |Tickers(rows)| <= |rows|
    ensures DistinctTickers(rows) <==> TickersDiffer(rows)
  {
    if rows == [] {
      assert Tickers(rows) == {};
    } else {
      hide TickersDiffer;
      var rest, last := rows[..|rows| - 1], rows[|rows| - 1];
      DistinctExactly(rest);
      NewTicker(rest, last);
      assert rows == rest + [last];
      assert Tickers(rows) == Tickers(rest) + {last.ticker};
    }
  }

  lemma {:induction false} CountOf(rows: seq<Strike>, kind: StrikeType)
    ensures |Of(rows, kind)| == multiset(Kinds(rows))[kind]
  {
    if rows != [] {
      CountOf(rows[1..], kind);
      assert Kinds(rows) == [rows[0].kind] + Kinds(rows[1..]);
    }
  }

  lemma {:induction false} ShapeExactly(rows: seq<Strike>)
    ensures Shape(rows) <==> multiset(Kinds(rows)) == LADDER_KINDS
  {
    hide Of;
    CountOf(rows, Less);
    CountOf(rows, Between);
    CountOf(rows, Greater);
    var kinds := multiset(Kinds(rows));
    assert |kinds| == |rows|;
    if Shape(rows) {
      assert kinds == multiset{Less, Between, Between, Between, Between, Greater} by {
        var others := kinds - LADDER_KINDS;
        assert kinds == others + LADDER_KINDS;
        assert |LADDER_KINDS| == 6 && |others| == 0;
      }
    }
    if kinds == LADDER_KINDS {
      assert |LADDER_KINDS| == 6;
    }
  }

  lemma {:induction false} InOf(rows: seq<Strike>, kind: StrikeType)
    ensures forall s :: s in Of(rows, kind) <==> s in rows && s.kind == kind
  {
    if rows != [] {
      InOf(rows[1..], kind);
      assert forall s :: s in rows <==> s == rows[0] || s in rows[1..];
    }
  }

  // ----- the rungs -----

  predicate RungFine(event: string, s: Strike, b: int) {
    s.floor == Some(b as real) && s.cap == Some((b + 1) as real) && s.ticker == BucketTicker(event, b)
  }

  /** Rung `k` is the first to look at: all below are fine. */
  predicate FineBelow(event: string, middle: seq<Strike>, b: int, k: nat)
    requires k <= |middle|
  {
    forall j :: 0 <= j < k ==> RungFine(event, middle[j], b + 2 * j)
  }

  /** What is wrong with the rung at `b`. */
  predicate RungComplaint(event: string, s: Strike, b: int, code: Code) {
    match code
    case LadderGapOrOverlap => s.floor != Some(b as real) || (s.cap.Some? && s.cap != Some((b + 1) as real))
    case Malformed => s.floor == Some(b as real) && s.cap == None
    case BucketTickerMismatch =>
      s.floor == Some(b as real) && s.cap == Some((b + 1) as real) && s.ticker != BucketTicker(event, b)
    case _ => false
  }

  ghost predicate RungRefused(event: string, middle: seq<Strike>, b: int, code: Code) {
    exists k: nat :: k < |middle| && FineBelow(event, middle, b, k) && RungComplaint(event, middle[k], b + 2 * k, code)
  }

  lemma {:induction false} RungStep(event: string, middle: seq<Strike>, b: int, code: Code)
    requires middle != []
    ensures RungFine(event, middle[0], b) ==>
              MiddleDefect(event, middle, b) == MiddleDefect(event, middle[1..], b + 2) && !RungComplaint(event, middle[0], b, code)
    ensures !RungFine(event, middle[0], b) ==>
              (MiddleDefect(event, middle, b) == Refused(code) <==> RungComplaint(event, middle[0], b, code))
  {
    hide BucketTicker;
  }

  lemma {:induction false} FineBelowTail(event: string, middle: seq<Strike>, b: int, k: nat)
    requires k < |middle| && RungFine(event, middle[0], b)
    ensures FineBelow(event, middle[1..], b + 2, k) <==> FineBelow(event, middle, b, k + 1)
  {
    hide RungFine;
    var rest := middle[1..];
    if FineBelow(event, rest, b + 2, k) {
      forall j | 0 <= j < k + 1 ensures RungFine(event, middle[j], b + 2 * j) {
        if j > 0 {
          assert rest[j - 1] == middle[j] && b + 2 + 2 * (j - 1) == b + 2 * j;
        }
      }
    }
    if FineBelow(event, middle, b, k + 1) {
      forall j | 0 <= j < k ensures RungFine(event, rest[j], b + 2 + 2 * j) {
        assert rest[j] == middle[j + 1] && b + 2 + 2 * j == b + 2 * (j + 1);
      }
    }
  }

  lemma {:induction false} RefusedTail(event: string, middle: seq<Strike>, b: int, code: Code)
    requires middle != [] && RungFine(event, middle[0], b) && !RungComplaint(event, middle[0], b, code)
    ensures RungRefused(event, middle, b, code) <==> RungRefused(event, middle[1..], b + 2, code)
  {
    hide RungFine, RungComplaint, FineBelow;
    var rest := middle[1..];
    if RungRefused(event, middle, b, code) {
      var k: nat :| k < |middle| && FineBelow(event, middle, b, k) && RungComplaint(event, middle[k], b + 2 * k, code);
      assert k > 0 && b + 2 + 2 * (k - 1) == b + 2 * k;
      FineBelowTail(event, middle, b, k - 1);
      assert rest[k - 1] == middle[k];
    }
    if RungRefused(event, rest, b + 2, code) {
      var k: nat :| k < |rest| && FineBelow(event, rest, b + 2, k) && RungComplaint(event, rest[k], b + 2 + 2 * k, code);
      FineBelowTail(event, middle, b, k);
      assert rest[k] == middle[k + 1] && b + 2 + 2 * k == b + 2 * (k + 1);
    }
  }

  lemma {:induction false} LowestRung(event: string, middle: seq<Strike>, b: int, k: nat)
    requires k <= |middle| && middle != [] && FineBelow(event, middle, b, k)
    ensures k > 0 ==> RungFine(event, middle[0], b)
  {
    hide RungFine;
    assert k > 0 ==> RungFine(event, middle[0], b + 2 * 0);
  }

  lemma {:induction false} NothingBelow(event: string, middle: seq<Strike>, b: int)
    ensures FineBelow(event, middle, b, 0)
  {
  }

  lemma {:induction false} BadAtOnce(event: string, middle: seq<Strike>, b: int, code: Code)
    requires middle != [] && !RungFine(event, middle[0], b)
    ensures RungRefused(event, middle, b, code) <==> RungComplaint(event, middle[0], b, code)
  {
    hide RungFine, RungComplaint, FineBelow;
    NothingBelow(event, middle, b);
    assert b + 2 * 0 == b;
    forall k: nat | k <= |middle| && FineBelow(event, middle, b, k) ensures k == 0 {
      LowestRung(event, middle, b, k);
    }
  }

  /** The middle is refused for the first defective rung. */
  lemma {:induction false} RungCodes(event: string, middle: seq<Strike>, b: int, code: Code)
    ensures MiddleDefect(event, middle, b) == Refused(code) <==> RungRefused(event, middle, b, code)
  {
    hide RungFine, RungComplaint, FineBelow;
    if middle != [] {
      RungStep(event, middle, b, code);
      if RungFine(event, middle[0], b) {
        RungCodes(event, middle[1..], b + 2, code);
        RefusedTail(event, middle, b, code);
      } else {
        BadAtOnce(event, middle, b, code);
      }
      hide MiddleDefect;
    }
  }

  predicate RungCode(code: Code) {
    code == LadderGapOrOverlap || code == Malformed || code == BucketTickerMismatch
  }

  lemma {:induction false} OnlyRungCodes(event: string, middle: seq<Strike>, b: int, code: Code)
    ensures RungRefused(event, middle, b, code) ==> RungCode(code)
  {
    hide BucketTicker;
  }

  // ----- the codes -----

  ghost predicate ListingOk(rows: seq<Strike>) {
    TickersDiffer(rows) && multiset(Kinds(rows)) == LADDER_KINDS
  }

  ghost predicate FloorsGiven(rows: seq<Strike>) {
    forall s :: s in rows && s.kind == Between ==> s.floor.Some?
  }

  ghost predicate TailsGiven(rows: seq<Strike>) {
    forall s :: s in rows ==> (s.kind == Less ==> s.cap.Some?) && (s.kind == Greater ==> s.floor.Some?)
  }

  /** The tails are seven degrees apart, from an integer on. */
  ghost predicate TailsApart(rows: seq<Strike>, b: int) {
    forall s :: s in rows ==>
      && (s.kind == Less ==> s.cap == Some(b as real))
      && (s.kind == Greater ==> s.floor == Some((b + 7) as real))
  }

  ghost predicate TailsNamed(event: string, rows: seq<Strike>, b: int) {
    forall s :: s in rows ==>
      && (s.kind == Less ==> s.ticker == TailTicker(event, b))
      && (s.kind == Greater ==> s.ticker == TailTicker(event, b + 7))
  }

  function Middle(rows: seq<Strike>): seq<Strike> {
    Sort(Of(rows, Between), FloorLe)
  }

  lemma {:induction false} Ends(rows: seq<Strike>)
    requires Shape(rows)
    ensures var low, high := Of(rows, Less)[0], Of(rows, Greater)[0];
            forall s :: s in rows ==> (s.kind == Less <==> s == low) && (s.kind == Greater <==> s == high)
    ensures Of(rows, Less)[0] in rows && Of(rows, Greater)[0] in rows
  {
    InOf(rows, Less);
    InOf(rows, Greater);
    var low, high := Of(rows, Less), Of(rows, Greater);
    assert low == [low[0]] && high == [high[0]];
    hide Of;
    assert forall s :: s in low <==> s == low[0];
    assert forall s :: s in high <==> s == high[0];
    assert low[0] in low && high[0] in high;
  }

  /** The exact condition of each structural complaint, in the source's order. */
  lemma {:induction false} CodeExactly(event: string, rows: seq<Strike>)
    ensures Structure(event, rows) == Refused(DuplicateSibling) <==> !TickersDiffer(rows)
    ensures Structure(event, rows) == Refused(StrikeShape) <==> TickersDiffer(rows) && multiset(Kinds(rows)) != LADDER_KINDS
    ensures Structure(event, rows) == Refused(BoundsMissing) <==> ListingOk(rows) && FloorsGiven(rows) && !TailsGiven(rows)
    ensures Structure(event, rows) == Refused(TailTickerMismatch) <==>
            ListingOk(rows) && FloorsGiven(rows) && exists b: int :: TailsApart(rows, b) && !TailsNamed(event, rows, b)
    ensures Structure(event, rows) == Refused(LadderGapOrOverlap) <==>
            && ListingOk(rows) && FloorsGiven(rows) && TailsGiven(rows)
            && forall b: int :: TailsApart(rows, b) ==>
                 TailsNamed(event, rows, b) && RungRefused(event, Middle(rows), b, LadderGapOrOverlap)
    ensures Structure(event, rows) == Refused(Malformed) <==>
            && ListingOk(rows)
            && (FloorsGiven(rows) ==>
                  exists b: int :: TailsApart(rows, b) && TailsNamed(event, rows, b) && RungRefused(event, Middle(rows), b, Malformed))
    ensures Structure(event, rows) == Refused(BucketTickerMismatch) <==>
            && ListingOk(rows) && FloorsGiven(rows)
            && exists b: int ::
                 TailsApart(rows, b) && TailsNamed(event, rows, b) && RungRefused(event, Middle(rows), b, BucketTickerMismatch)
  {
    hide RungRefused, TailTicker, MiddleDefect, Sort, TickersDiffer, DistinctTickers, Of, Kinds;
    DistinctExactly(rows);
    ShapeExactly(rows);
    if Shape(rows) {
      Ends(rows);
      InOf(rows, Between);
      assert AllFloors(Of(rows, Between)) <==> FloorsGiven(rows);
      var low, high := Of(rows, Less)[0], Of(rows, Greater)[0];
      assert TailsGiven(rows) <==> low.cap.Some? && high.floor.Some?;
      forall c: int | TailsApart(rows, c) ensures TailsGiven(rows) && low.cap == Some(c as real) {
      }
      if TailsGiven(rows) {
        var b := low.cap.value.Floor;
        forall c: int | TailsApart(rows, c) ensures c == b {
          assert low.cap == Some(c as real);
        }
        assert TailsApart(rows, b) <==> low.cap.value == b as real && high.floor.value == (b + 7) as real;
        assert TailsNamed(event, rows, b) <==> low.ticker == TailTicker(event, b) && high.ticker == TailTicker(event, b + 7);
        forall code ensures MiddleDefect(event, Middle(rows), b) == Refused(code) <==> RungRefused(event, Middle(rows), b, code) {
          RungCodes(event, Middle(rows), b, code);
        }
        forall code ensures RungRefused(event, Middle(rows), b, code) ==> RungCode(code) {
          OnlyRungCodes(event, Middle(rows), b, code);
        }
      }
    }
  }

  // ----- the tickers as they are written -----

  lemma {:induction false} TickerTexts()
    ensures TailTicker("E", 71) == "E-T71" && TailTicker("E", -3) == "E-T-3"
    ensures BucketTicker("E", 71) == "E-B71.5" && BucketTicker("E", -1) == "E-B-0.5" && BucketTicker("E", -3) == "E-B-2.5"
  {
  }
}
