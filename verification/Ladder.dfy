/** The six-market strike ladder: what the structural checks accept is exactly one partition of the integers. */
module Ladder {
  import opened Ordering
  import opened Text

  datatype Option<+T> = None | Some(value: T)

  datatype StrikeType = Less | Between | Greater | OtherStrike

  /** The fields of a market that place it on the ladder. A missing or null strike is None. */
  datatype Strike = Strike(ticker: string, kind: StrikeType, floor: Option<real>, cap: Option<real>)

  datatype Code =
    | DuplicateSibling
    | StrikeShape
    | BoundsMissing
    | LadderGapOrOverlap
    | TailTickerMismatch
    | BucketTickerMismatch
    | Malformed

  datatype Verdict = Accepted | Refused(code: Code)

  /** What a market pays on. */
  datatype Contract =
    | Under(cap: real, ticker: string)
    | Within(floor: real, cap: real, ticker: string)
    | Over(floor: real, ticker: string)
    | Incomplete

  function ContractOf(s: Strike): Contract {
    match s.kind
    case Less => if s.cap.Some? then Under(s.cap.value, s.ticker) else Incomplete
    case Between => if s.floor.Some? && s.cap.Some? then Within(s.floor.value, s.cap.value, s.ticker) else Incomplete
    case Greater => if s.floor.Some? then Over(s.floor.value, s.ticker) else Incomplete
    case OtherStrike => Incomplete
  }

  function Contracts(rows: seq<Strike>): (r: seq<Contract>)
    ensures |r| == |rows| && forall i :: 0 <= i < |rows| ==> r[i] == ContractOf(rows[i])
  {
    if rows == [] then [] else [ContractOf(rows[0])] + Contracts(rows[1..])
  }

  predicate Settles(c: Contract, v: int) {
    match c
    case Under(cap, _) => v as real < cap
    case Within(floor, cap, _) => floor <= v as real <= cap
    case Over(floor, _) => v as real > floor
    case Incomplete => false
  }

  // ----- the ladder of a base -----

  function TailTicker(event: string, b: int): string {
    event + "-T" + IntText(b)
  }

  /** One decimal of `n + 0.5`. */
  function HalfText(n: int): string {
    if n >= 0 then NatText(n) + ".5" else "-" + NatText(-n - 1) + ".5"
  }

  function BucketTicker(event: string, b: int): string {
    event + "-B" + HalfText(b)
  }

  /** `n` two-degree rungs from `b` upwards. */
  function Rungs(event: string, b: int, n: nat): (r: seq<Contract>)
    ensures |r| == n
    decreases n
  {
    if n == 0 then [] else [Within(b as real, (b + 1) as real, BucketTicker(event, b))] + Rungs(event, b + 2, n - 1)
  }

  function LadderOf(event: string, b: int): seq<Contract> {
    [Under(b as real, TailTicker(event, b))] + Rungs(event, b, 4) + [Over((b + 7) as real, TailTicker(event, b + 7))]
  }

  // ----- the structural checks, in order -----

  predicate DistinctTickers(rows: seq<Strike>) {
    |set s | s in rows :: s.ticker| == |rows|
  }

  /** The rows of one strike type, in order. */
  function Of(rows: seq<Strike>, kind: StrikeType): seq<Strike> {
    if rows == [] then [] else (if rows[0].kind == kind then [rows[0]] else []) + Of(rows[1..], kind)
  }

  predicate Shape(rows: seq<Strike>) {
    |rows| == 6 && |Of(rows, Less)| == 1 && |Of(rows, Between)| == 4 && |Of(rows, Greater)| == 1
  }

  function FloorOr(s: Strike): real {
    if s.floor.Some? then s.floor.value else 0.0
  }

  predicate FloorLe(a: Strike, b: Strike) {
    FloorOr(a) <= FloorOr(b)
  }

  predicate AllFloors(rows: seq<Strike>) {
    forall s :: s in rows ==> s.floor.Some?
  }

  function MiddleDefect(event: string, rows: seq<Strike>, b: int): Verdict {
    if rows == [] then Accepted
    else if rows[0].floor != Some(b as real) then Refused(LadderGapOrOverlap)
    else if rows[0].cap == None then Refused(Malformed)
    else if rows[0].cap != Some((b + 1) as real) then Refused(LadderGapOrOverlap)
    else if rows[0].ticker != BucketTicker(event, b) then Refused(BucketTickerMismatch)
    else MiddleDefect(event, rows[1..], b + 2)
  }

  /** The tails, then the middle in ascending floor order. */
  function LadderDefect(event: string, lower: Strike, middle: seq<Strike>, upper: Strike): Verdict {
    if lower.cap == None || upper.floor == None then Refused(BoundsMissing)
    else
      var b := lower.cap.value.Floor;
      if lower.cap.value != b as real || upper.floor.value != (b + 7) as real then Refused(LadderGapOrOverlap)
      else if lower.ticker != TailTicker(event, b) || upper.ticker != TailTicker(event, b + 7) then Refused(TailTickerMismatch)
      else MiddleDefect(event, middle, b)
  }

  function Structure(event: string, rows: seq<Strike>): Verdict {
    if !DistinctTickers(rows) then Refused(DuplicateSibling)
    else if !Shape(rows) then Refused(StrikeShape)
    else if !AllFloors(Of(rows, Between)) then Refused(Malformed)
    else LadderDefect(event, Of(rows, Less)[0], Sort(Of(rows, Between), FloorLe), Of(rows, Greater)[0])
  }

  /** The loop over the sorted middle. */
  method CheckMiddle(event: string, middle: seq<Strike>, b: int) returns (v: Verdict)
    ensures v == MiddleDefect(event, middle, b)
  {
    hide BucketTicker;
    var i := 0;
    while i < |middle|
      invariant 0 <= i <= |middle|
      invariant MiddleDefect(event, middle, b) == MiddleDefect(event, middle[i..], b + 2 * i)
    {
      var row, floor := middle[i], b + 2 * i;
      if row.floor != Some(floor as real) {
        return Refused(LadderGapOrOverlap);
      }
      if row.cap == None {
        return Refused(Malformed);
      }
      if row.cap != Some((floor + 1) as real) {
        return Refused(LadderGapOrOverlap);
      }
      if row.ticker != BucketTicker(event, floor) {
        return Refused(BucketTickerMismatch);
      }
      assert middle[i..][1..] == middle[i + 1..];
      i := i + 1;
    }
    return Accepted;
  }

  /** The structural part of `validate_market`. */
  method CheckStructure(event: string, rows: seq<Strike>) returns (v: Verdict)
    ensures v == Structure(event, rows)
  {
    hide MiddleDefect, TailTicker, Of;
    if !DistinctTickers(rows) {
      return Refused(DuplicateSibling);
    }
    if !Shape(rows) {
      return Refused(StrikeShape);
    }
    var lower, upper, between := Of(rows, Less)[0], Of(rows, Greater)[0], Of(rows, Between);
    if !AllFloors(between) {
      return Refused(Malformed);
    }
    var middle := Sort(between, FloorLe);
    if lower.cap == None || upper.floor == None {
      return Refused(BoundsMissing);
    }
    var base := lower.cap.value.Floor;
    if lower.cap.value != base as real || upper.floor.value != (base + 7) as real {
      return Refused(LadderGapOrOverlap);
    }
    if lower.ticker != TailTicker(event, base) || upper.ticker != TailTicker(event, base + 7) {
      return Refused(TailTickerMismatch);
    }
    v := CheckMiddle(event, middle, base);
  }

  // ----- the ladder partitions the integers -----

  function Settler(v: int): Contract -> bool {
    c => Settles(c, v)
  }

  /** How many contracts pay on a value. */
  function Settling(cs: seq<Contract>, v: int): nat {
    Count(cs, Settler(v))
  }

  lemma {:induction false} RungsSettle(event: string, b: int, n: nat, v: int)
    ensures Settling(Rungs(event, b, n), v) == if b <= v < b + 2 * n then 1 else 0
    decreases n
  {
    hide BucketTicker;
    if n > 0 {
      RungsSettle(event, b + 2, n - 1, v);
      var head := Within(b as real, (b + 1) as real, BucketTicker(event, b));
      assert Rungs(event, b, n)[1..] == Rungs(event, b + 2, n - 1);
      assert Settles(head, v) <==> b <= v < b + 2;
    }
  }

  /** Every integer settles exactly one contract of a ladder. */
  lemma {:induction false} LadderPartitions(event: string, b: int, v: int)
    ensures Settling(LadderOf(event, b), v) == 1
  {
    hide Rungs, TailTicker;
    var low, high := Under(b as real, TailTicker(event, b)), Over((b + 7) as real, TailTicker(event, b + 7));
    RungsSettle(event, b, 4, v);
    CountAppend([low] + Rungs(event, b, 4), [high], Settler(v));
    CountAppend([low], Rungs(event, b, 4), Settler(v));
    assert [low][1..] == [] && [high][1..] == [];
  }

  lemma {:induction false} SettlingUnique(cs: seq<Contract>, v: int) returns (i: nat)
    requires Settling(cs, v) == 1
    ensures i < |cs| && Settles(cs[i], v)
    ensures forall j :: 0 <= j < |cs| && Settles(cs[j], v) ==> j == i
  {
    hide Settles;
    if Settles(cs[0], v) {
      i := 0;
      forall j | 0 < j < |cs| ensures !Settles(cs[j], v) {
        SettlingNone(cs[1..], v);
        assert cs[j] == cs[1..][j - 1];
      }
    } else {
      i := SettlingUnique(cs[1..], v);
      forall j | 0 <= j < |cs| && Settles(cs[j], v) ensures j == i + 1 {
        assert cs[j] == cs[1..][j - 1];
      }
      i := i + 1;
    }
  }

  lemma {:induction false} SettlingNone(cs: seq<Contract>, v: int)
    requires Settling(cs, v) == 0
    ensures forall j :: 0 <= j < |cs| ==> !Settles(cs[j], v)
  {
    hide Settles;
    if cs != [] {
      SettlingNone(cs[1..], v);
      assert forall j :: 0 < j < |cs| ==> cs[j] == cs[1..][j - 1];
    }
  }

  // ----- accepted structure is a ladder -----

  lemma {:induction false} ContractsAppend(a: seq<Strike>, b: seq<Strike>)
    ensures Contracts(a + b) == Contracts(a) + Contracts(b)
  {
    hide ContractOf;
  }

  function StandsFor(c: Contract): Strike -> bool {
    s => ContractOf(s) == c
  }

  lemma {:induction false} ContractCount(rows: seq<Strike>, c: Contract)
    ensures multiset(Contracts(rows))[c] == Count(rows, StandsFor(c))
  {
    hide ContractOf;
    if rows != [] {
      ContractCount(rows[1..], c);
    }
  }

  lemma {:induction false} ContractsBag(a: seq<Strike>, b: seq<Strike>)
    requires multiset(a) == multiset(b)
    ensures multiset(Contracts(a)) == multiset(Contracts(b))
  {
    hide ContractOf, Contracts, StandsFor;
    forall c ensures multiset(Contracts(a))[c] == multiset(Contracts(b))[c] {
      ContractCount(a, c);
      ContractCount(b, c);
      CountBag(a, b, StandsFor(c));
    }
  }

  lemma {:induction false} KindCount(rows: seq<Strike>, s: Strike, kind: StrikeType)
    ensures multiset(Of(rows, kind))[s] == if s.kind == kind then multiset(rows)[s] else 0
  {
    if rows != [] {
      KindCount(rows[1..], s, kind);
      assert rows == [rows[0]] + rows[1..];
    }
  }

  lemma {:induction false} KindLengths(rows: seq<Strike>)
    ensures |rows| == |Of(rows, Less)| + |Of(rows, Between)| + |Of(rows, Greater)| + |Of(rows, OtherStrike)|
  {
    if rows != [] {
      KindLengths(rows[1..]);
    }
  }

  lemma {:induction false} OfKind(rows: seq<Strike>, kind: StrikeType)
    ensures forall s :: s in Of(rows, kind) <==> s in rows && s.kind == kind
  {
    if rows != [] {
      OfKind(rows[1..], kind);
      assert forall s :: s in rows <==> s == rows[0] || s in rows[1..];
    }
  }

  /** The middle check accepts exactly the rungs of its base. */
  lemma {:induction false} MiddleIsRungs(event: string, middle: seq<Strike>, b: int)
    requires forall i :: 0 <= i < |middle| ==> middle[i].kind == Between
    ensures MiddleDefect(event, middle, b) == Accepted <==> Contracts(middle) == Rungs(event, b, |middle|)
  {
    hide BucketTicker;
    if middle != [] {
      MiddleIsRungs(event, middle[1..], b + 2);
      var head := Within(b as real, (b + 1) as real, BucketTicker(event, b));
      assert Contracts(middle) == [ContractOf(middle[0])] + Contracts(middle[1..]);
      assert Rungs(event, b, |middle|) == [head] + Rungs(event, b + 2, |middle| - 1);
      assert Contracts(middle)[1..] == Contracts(middle[1..]);
      assert Rungs(event, b, |middle|)[1..] == Rungs(event, b + 2, |middle| - 1);
    }
  }

  /** The parts of a well-shaped event, arranged as the checks see them. */
  ghost function Arranged(rows: seq<Strike>): seq<Strike>
    requires Shape(rows)
  {
    [Of(rows, Less)[0]] + Sort(Of(rows, Between), FloorLe) + [Of(rows, Greater)[0]]
  }

  lemma {:induction false} ArrangedBag(rows: seq<Strike>)
    requires Shape(rows)
    ensures multiset(Arranged(rows)) == multiset(rows)
  {
    hide FloorLe, Of;
    KindLengths(rows);
    var less, between, greater := Of(rows, Less), Of(rows, Between), Of(rows, Greater);
    assert less == [less[0]] && greater == [greater[0]];
    forall s ensures multiset(Arranged(rows))[s] == multiset(rows)[s] {
      KindCount(rows, s, Less);
      KindCount(rows, s, Between);
      KindCount(rows, s, Greater);
      KindCount(rows, s, OtherStrike);
      assert multiset(Arranged(rows))[s] == multiset(less)[s] + multiset(between)[s] + multiset(greater)[s];
      assert |multiset(Of(rows, OtherStrike))| == 0;
    }
  }

  lemma {:induction false} ArrangedContracts(rows: seq<Strike>)
    requires Shape(rows)
    ensures Contracts(Arranged(rows)) ==
            [ContractOf(Of(rows, Less)[0])] + Contracts(Sort(Of(rows, Between), FloorLe)) + [ContractOf(Of(rows, Greater)[0])]
  {
    hide FloorLe, ContractOf, Of;
    var low, middle, high := Of(rows, Less)[0], Sort(Of(rows, Between), FloorLe), Of(rows, Greater)[0];
    ContractsAppend([low] + middle, [high]);
    ContractsAppend([low], middle);
  }

  /** Accepted: the siblings, in whatever order, are the contracts of the ladder at one integer base. */
  lemma {:induction false} AcceptedIsLadder(event: string, rows: seq<Strike>) returns (b: int)
    requires Structure(event, rows) == Accepted
    ensures multiset(Contracts(rows)) == multiset(LadderOf(event, b))
  {
    hide FloorLe, Contracts, Rungs, Of, DistinctTickers, AllFloors, LadderDefect, LadderOf, ContractOf;
    var low, middle, high := Of(rows, Less)[0], Sort(Of(rows, Between), FloorLe), Of(rows, Greater)[0];
    OfKind(rows, Less);
    OfKind(rows, Greater);
    MiddleKinds(rows);
    b := PassedIsLadder(event, low, middle, high);
    ArrangedContracts(rows);
    ArrangedBag(rows);
    ContractsBag(Arranged(rows), rows);
  }

  lemma {:induction false} PassedIsLadder(event: string, low: Strike, middle: seq<Strike>, high: Strike) returns (b: int)
    requires low.kind == Less && high.kind == Greater && |middle| == 4
    requires forall i :: 0 <= i < |middle| ==> middle[i].kind == Between
    requires LadderDefect(event, low, middle, high) == Accepted
    ensures [ContractOf(low)] + Contracts(middle) + [ContractOf(high)] == LadderOf(event, b)
  {
    hide Rungs, Contracts, TailTicker, MiddleDefect;
    b := low.cap.value.Floor;
    MiddleIsRungs(event, middle, b);
  }

  lemma {:induction false} MiddleKinds(rows: seq<Strike>)
    ensures forall i :: 0 <= i < |Sort(Of(rows, Between), FloorLe)| ==> Sort(Of(rows, Between), FloorLe)[i].kind == Between
  {
    hide FloorLe;
    OfKind(rows, Between);
    var between := Of(rows, Between);
    var middle := Sort(between, FloorLe);
    forall i | 0 <= i < |middle| ensures middle[i].kind == Between {
      assert middle[i] in multiset(middle);
      assert middle[i] in between;
    }
  }

  /** So every integer settles exactly one of the six siblings, whatever order they are listed in. */
  lemma {:induction false} AcceptedPartitionsIntegers(event: string, rows: seq<Strike>, v: int) returns (i: nat)
    requires Structure(event, rows) == Accepted
    ensures i < |rows| == 6 && Settles(ContractOf(rows[i]), v)
    ensures forall j :: 0 <= j < |rows| && Settles(ContractOf(rows[j]), v) ==> j == i
  {
    hide Settles, ContractOf, LadderOf;
    var b := AcceptedIsLadder(event, rows);
    LadderPartitions(event, b, v);
    CountBag(Contracts(rows), LadderOf(event, b), Settler(v));
    i := SettlingUnique(Contracts(rows), v);
    forall j | 0 <= j < |rows| && Settles(ContractOf(rows[j]), v) ensures j == i {
      assert Contracts(rows)[j] == ContractOf(rows[j]);
    }
  }

  // ----- every ladder is accepted -----

  function TickerOf(c: Contract): string {
    if c.Incomplete? then "" else c.ticker
  }

  lemma {:induction false} HalfTextInjective(m: int, n: int)
    requires HalfText(m) == HalfText(n)
    ensures m == n
  {
    var x, y := if m >= 0 then m else -m - 1, if n >= 0 then n else -n - 1;
    NatTextRoundTrip(x);
    NatTextRoundTrip(y);
    assert (HalfText(m)[0] == '-') == (m < 0);
    assert (HalfText(n)[0] == '-') == (n < 0);
    var skip := if m < 0 then 1 else 0;
    assert NatText(x) == HalfText(m)[skip..|HalfText(m)| - 2];
    assert NatText(y) == HalfText(n)[skip..|HalfText(n)| - 2];
  }

  lemma {:induction false} TickersApart(event: string, m: int, n: int)
    ensures TailTicker(event, m) == TailTicker(event, n) ==> m == n
    ensures BucketTicker(event, m) == BucketTicker(event, n) ==> m == n
    ensures TailTicker(event, m) != BucketTicker(event, n)
  {
    var k := |event|;
    assert TailTicker(event, m)[k + 2..] == IntText(m) && TailTicker(event, n)[k + 2..] == IntText(n);
    assert BucketTicker(event, m)[k + 2..] == HalfText(m) && BucketTicker(event, n)[k + 2..] == HalfText(n);
    assert TailTicker(event, m)[k + 1] == 'T' && BucketTicker(event, n)[k + 1] == 'B';
    if IntText(m) == IntText(n) {
      IntTextInjective(m, n);
    }
    if HalfText(m) == HalfText(n) {
      HalfTextInjective(m, n);
    }
  }

  lemma {:induction false} RungAt(event: string, b: int, n: nat, i: nat)
    requires i < n
    ensures Rungs(event, b, n)[i] == Within((b + 2 * i) as real, (b + 2 * i + 1) as real, BucketTicker(event, b + 2 * i))
    decreases n
  {
    hide BucketTicker;
    if i > 0 {
      RungAt(event, b + 2, n - 1, i - 1);
      assert Rungs(event, b, n)[i] == Rungs(event, b + 2, n - 1)[i - 1];
    }
  }

  /** No two contracts of a ladder share a ticker. */
  lemma {:induction false} LadderTickersDistinct(event: string, b: int)
    ensures |LadderOf(event, b)| == 6
    ensures forall i, j :: 0 <= i < j < 6 ==> TickerOf(LadderOf(event, b)[i]) != TickerOf(LadderOf(event, b)[j])
  {
    hide TailTicker, BucketTicker, Rungs;
    var ladder := LadderOf(event, b);
    forall i, j | 0 <= i < j < 6 ensures TickerOf(ladder[i]) != TickerOf(ladder[j]) {
      LadderTicker(event, b, i);
      LadderTicker(event, b, j);
      TickersApart(event, b, b + 7);
      TickersApart(event, b, b + 2 * (i - 1));
      TickersApart(event, b, b + 2 * (j - 1));
      TickersApart(event, b + 7, b + 2 * (i - 1));
      TickersApart(event, b + 2 * (i - 1), b + 2 * (j - 1));
    }
  }

  lemma {:induction false} LadderTicker(event: string, b: int, i: nat)
    requires i < |LadderOf(event, b)|
    ensures |LadderOf(event, b)| == 6
    ensures TickerOf(LadderOf(event, b)[i]) ==
            if i == 0 then TailTicker(event, b) else if i == 5 then TailTicker(event, b + 7) else BucketTicker(event, b + 2 * (i - 1))
  {
    hide TailTicker, BucketTicker, Rungs;
    if 0 < i < 5 {
      RungAt(event, b, 4, i - 1);
    }
  }

  lemma {:induction false} DistinctBySize(rows: seq<Strike>)
    requires forall i, j :: 0 <= i < j < |rows| ==> rows[i].ticker != rows[j].ticker
    ensures DistinctTickers(rows)
  {
    if rows != [] {
      DistinctBySize(rows[1..]);
      var rest := set s | s in rows[1..] :: s.ticker;
      assert (set s | s in rows :: s.ticker) == rest + {rows[0].ticker};
      assert rows[0].ticker !in rest;
    }
  }

  lemma {:induction false} ContractsDistinct(cs: seq<Contract>, ladder: seq<Contract>)
    requires multiset(cs) == multiset(ladder)
    requires forall i, j :: 0 <= i < j < |ladder| ==> TickerOf(ladder[i]) != TickerOf(ladder[j])
    ensures forall i, j :: 0 <= i < j < |cs| ==> TickerOf(cs[i]) != TickerOf(cs[j])
  {
    hide TickerOf;
    forall i, j | 0 <= i < j < |cs| ensures TickerOf(cs[i]) != TickerOf(cs[j]) {
      if TickerOf(cs[i]) == TickerOf(cs[j]) {
        assert cs[i] in multiset(ladder) && cs[j] in multiset(ladder);
        assert cs[i] == cs[j];
        TwiceCounted(cs, i, j);
        OnceCounted(ladder, cs[i]);
      }
    }
  }

  lemma {:induction false} TwiceCounted(cs: seq<Contract>, i: nat, j: nat)
    requires i < j < |cs| && cs[i] == cs[j]
    ensures multiset(cs)[cs[i]] >= 2
  {
    assert cs == cs[..j] + cs[j..];
    assert cs[i] in cs[..j] && cs[j] in cs[j..];
  }

  lemma {:induction false} OnceCounted(cs: seq<Contract>, c: Contract)
    requires forall i, j :: 0 <= i < j < |cs| ==> cs[i] != cs[j]
    ensures multiset(cs)[c] <= 1
  {
    if cs != [] {
      OnceCounted(cs[1..], c);
      assert cs == [cs[0]] + cs[1..];
      assert cs[0] !in cs[1..];
    }
  }

  // The strike type of a complete contract.
  function KindOf(c: Contract): StrikeType {
    match c
    case Under(_, _) => Less
    case Within(_, _, _) => Between
    case Over(_, _) => Greater
    case Incomplete => OtherStrike
  }

  function IsKind(kind: StrikeType): Contract -> bool {
    c => KindOf(c) == kind
  }

  lemma {:induction false} KindsMatch(rows: seq<Strike>, kind: StrikeType)
    requires forall i :: 0 <= i < |rows| ==> ContractOf(rows[i]) != Incomplete
    ensures |Of(rows, kind)| == Count(Contracts(rows), IsKind(kind))
  {
    if rows != [] {
      forall i | 0 <= i < |rows[1..]| ensures ContractOf(rows[1..][i]) != Incomplete {
        assert rows[1..][i] == rows[i + 1];
      }
      KindsMatch(rows[1..], kind);
      assert ContractOf(rows[0]) != Incomplete;
      assert KindOf(ContractOf(rows[0])) == rows[0].kind;
    }
  }

  lemma {:induction false} RungKinds(event: string, b: int, n: nat, kind: StrikeType)
    ensures Count(Rungs(event, b, n), IsKind(kind)) == if kind == Between then n else 0
    decreases n
  {
    hide BucketTicker;
    if n > 0 {
      RungKinds(event, b + 2, n - 1, kind);
      assert Rungs(event, b, n)[1..] == Rungs(event, b + 2, n - 1);
    }
  }

  lemma {:induction false} LadderKinds(event: string, b: int, kind: StrikeType)
    ensures Count(LadderOf(event, b), IsKind(kind)) ==
            match kind case Less => 1 case Between => 4 case Greater => 1 case OtherStrike => 0
  {
    hide Rungs, TailTicker;
    var low, high := Under(b as real, TailTicker(event, b)), Over((b + 7) as real, TailTicker(event, b + 7));
    RungKinds(event, b, 4, kind);
    CountAppend([low] + Rungs(event, b, 4), [high], IsKind(kind));
    CountAppend([low], Rungs(event, b, 4), IsKind(kind));
    assert [low][1..] == [] && [high][1..] == [];
  }

  lemma {:induction false} NoneCounted(cs: seq<Contract>, p: Contract -> bool)
    requires Count(cs, p) == 0
    ensures forall i :: 0 <= i < |cs| ==> !p(cs[i])
  {
    if cs != [] {
      NoneCounted(cs[1..], p);
      assert forall i :: 0 < i < |cs| ==> cs[i] == cs[1..][i - 1];
    }
  }

  /** Rows with a ladder's contracts pass the sibling, shape and floor checks. */
  lemma {:induction false} LadderShape(event: string, rows: seq<Strike>, b: int)
    requires multiset(Contracts(rows)) == multiset(LadderOf(event, b))
    ensures forall i :: 0 <= i < |rows| ==> ContractOf(rows[i]) != Incomplete
    ensures DistinctTickers(rows) && Shape(rows)
  {
    hide LadderOf, ContractOf, DistinctTickers, Contracts;
    var cs, ladder := Contracts(rows), LadderOf(event, b);
    LadderTickersDistinct(event, b);
    assert |cs| == |multiset(cs)| == |multiset(ladder)| == 6;
    LadderKinds(event, b, OtherStrike);
    CountBag(cs, ladder, IsKind(OtherStrike));
    NoneCounted(cs, IsKind(OtherStrike));
    forall i | 0 <= i < |rows| ensures ContractOf(rows[i]) != Incomplete {
      assert !IsKind(OtherStrike)(cs[i]);
    }
    LadderShapeKind(event, rows, b, Less);
    LadderShapeKind(event, rows, b, Between);
    LadderShapeKind(event, rows, b, Greater);
    ContractsDistinct(cs, ladder);
    forall i, j | 0 <= i < j < |rows| ensures rows[i].ticker != rows[j].ticker {
      CompleteTicker(rows[i]);
      CompleteTicker(rows[j]);
      assert TickerOf(cs[i]) != TickerOf(cs[j]);
    }
    DistinctBySize(rows);
  }

  lemma {:induction false} CompleteTicker(s: Strike)
    ensures ContractOf(s) != Incomplete ==> TickerOf(ContractOf(s)) == s.ticker
  {
  }

  lemma {:induction false} LadderShapeKind(event: string, rows: seq<Strike>, b: int, kind: StrikeType)
    requires multiset(Contracts(rows)) == multiset(LadderOf(event, b))
    requires forall i :: 0 <= i < |rows| ==> ContractOf(rows[i]) != Incomplete
    ensures |Of(rows, kind)| == match kind case Less => 1 case Between => 4 case Greater => 1 case OtherStrike => 0
  {
    hide LadderOf, ContractOf, Contracts, Of;
    KindsMatch(rows, kind);
    LadderKinds(event, b, kind);
    CountBag(Contracts(rows), LadderOf(event, b), IsKind(kind));
  }

  ghost predicate FloorsAscend(cs: seq<Contract>) {
    && (forall i :: 0 <= i < |cs| ==> cs[i].Within?)
    && (forall i, j :: 0 <= i < j < |cs| ==> cs[i].floor <= cs[j].floor)
  }

  /** Rungs in floor order are the rungs. */
  lemma {:induction false} RungsUnique(event: string, b: int, n: nat, cs: seq<Contract>)
    requires FloorsAscend(cs) && multiset(cs) == multiset(Rungs(event, b, n))
    ensures cs == Rungs(event, b, n)
    decreases n
  {
    hide Rungs;
    var rungs := Rungs(event, b, n);
    assert |cs| == |multiset(cs)| == |multiset(rungs)| == n;
    if n > 0 {
      RungHead(event, b, n, cs);
      RungTail(event, b, n);
      TailsAgree(cs, rungs);
      RungsUnique(event, b + 2, n - 1, cs[1..]);
      assert cs == [cs[0]] + cs[1..];
      assert rungs == [rungs[0]] + rungs[1..];
    }
  }

  lemma {:induction false} TailsAgree(a: seq<Contract>, b: seq<Contract>)
    requires multiset(a) == multiset(b) && a != [] && b != [] && a[0] == b[0]
    ensures multiset(a[1..]) == multiset(b[1..])
  {
    assert a == [a[0]] + a[1..] && b == [b[0]] + b[1..];
    assert multiset(a[1..]) == multiset(a) - multiset{a[0]};
    assert multiset(b[1..]) == multiset(b) - multiset{b[0]};
  }

  lemma {:induction false} RungTail(event: string, b: int, n: nat)
    requires n > 0
    ensures Rungs(event, b, n)[1..] == Rungs(event, b + 2, n - 1)
  {
    hide BucketTicker;
  }

  lemma {:induction false} RungHead(event: string, b: int, n: nat, cs: seq<Contract>)
    requires n > 0 && |cs| == n && FloorsAscend(cs) && multiset(cs) == multiset(Rungs(event, b, n))
    ensures cs[0] == Rungs(event, b, n)[0]
  {
    hide BucketTicker, Rungs;
    var rungs := Rungs(event, b, n);
    assert cs[0] in multiset(rungs) && rungs[0] in multiset(cs);
    var i :| 0 <= i < n && rungs[i] == cs[0];
    var k :| 0 <= k < n && cs[k] == rungs[0];
    RungAt(event, b, n, i);
    RungAt(event, b, n, 0);
    assert k == 0 || cs[0].floor <= cs[k].floor;
  }

  lemma {:induction false} FloorLePreorder()
    ensures TotalPreorder(FloorLe)
  {
  }

  lemma {:induction false} CompleteBetween(s: Strike)
    requires s.kind == Between && ContractOf(s) != Incomplete
    ensures s.floor.Some? && ContractOf(s).Within? && ContractOf(s).floor == FloorOr(s)
  {
  }

  lemma {:induction false} MiddleComplete(rows: seq<Strike>)
    requires forall i :: 0 <= i < |rows| ==> ContractOf(rows[i]) != Incomplete
    ensures AllFloors(Of(rows, Between))
    ensures forall s :: s in Sort(Of(rows, Between), FloorLe) ==> s.kind == Between && ContractOf(s) != Incomplete
  {
    hide ContractOf, FloorLe, Of;
    OfKind(rows, Between);
    forall s | s in Of(rows, Between) ensures s.floor.Some? {
      CompleteBetween(s);
    }
    forall s | s in Sort(Of(rows, Between), FloorLe) ensures s in Of(rows, Between) {
      assert s in multiset(Sort(Of(rows, Between), FloorLe));
    }
  }

  lemma {:induction false} MiddleAscends(rows: seq<Strike>)
    requires forall i :: 0 <= i < |rows| ==> ContractOf(rows[i]) != Incomplete
    ensures FloorsAscend(Contracts(Sort(Of(rows, Between), FloorLe)))
  {
    hide ContractOf, Of, FloorOr, Sort;
    var middle := Sort(Of(rows, Between), FloorLe);
    MiddleComplete(rows);
    FloorLePreorder();
    SortSorts(Of(rows, Between), FloorLe);
    forall i | 0 <= i < |middle| ensures ContractOf(middle[i]).Within? && ContractOf(middle[i]).floor == FloorOr(middle[i]) {
      CompleteBetween(middle[i]);
    }
    forall i, j | 0 <= i < j < |middle| ensures FloorOr(middle[i]) <= FloorOr(middle[j]) {
      assert FloorLe(middle[i], middle[j]);
    }
  }

  /** The two ends and the middle of a ladder's rows are the ends and the rungs. */
  lemma {:induction false} LadderParts(event: string, rows: seq<Strike>, b: int)
    requires multiset(Contracts(rows)) == multiset(LadderOf(event, b)) && Shape(rows)
    requires forall i :: 0 <= i < |rows| ==> ContractOf(rows[i]) != Incomplete
    ensures ContractOf(Of(rows, Less)[0]) == LadderOf(event, b)[0]
    ensures ContractOf(Of(rows, Greater)[0]) == LadderOf(event, b)[5]
    ensures Contracts(Sort(Of(rows, Between), FloorLe)) == Rungs(event, b, 4)
  {
    hide FloorLe, TailTicker, BucketTicker, Rungs, ContractOf, Contracts, Of, FloorsAscend;
    var low, middle, high := Of(rows, Less)[0], Sort(Of(rows, Between), FloorLe), Of(rows, Greater)[0];
    EndContract(event, rows, b, low, Less);
    EndContract(event, rows, b, high, Greater);
    ArrangedContracts(rows);
    ArrangedBag(rows);
    ContractsBag(Arranged(rows), rows);
    MiddlesAgree(ContractOf(low), ContractOf(high), Contracts(middle), Rungs(event, b, 4));
    MiddleAscends(rows);
    RungsUnique(event, b, 4, Contracts(middle));
  }

  lemma {:induction false} MiddlesAgree(low: Contract, high: Contract, a: seq<Contract>, b: seq<Contract>)
    requires multiset([low] + a + [high]) == multiset([low] + b + [high])
    ensures multiset(a) == multiset(b)
  {
    assert ([low] + a + [high])[1..] == a + [high] && ([low] + b + [high])[1..] == b + [high];
    TailsAgree([low] + a + [high], [low] + b + [high]);
    FrontsAgree(a, b, high);
  }

  lemma {:induction false} FrontsAgree(a: seq<Contract>, b: seq<Contract>, last: Contract)
    requires multiset(a + [last]) == multiset(b + [last])
    ensures multiset(a) == multiset(b)
  {
    assert multiset(a) == multiset(a + [last]) - multiset{last};
    assert multiset(b) == multiset(b + [last]) - multiset{last};
  }

  lemma {:induction false} EndContract(event: string, rows: seq<Strike>, b: int, row: Strike, kind: StrikeType)
    requires multiset(Contracts(rows)) == multiset(LadderOf(event, b))
    requires forall i :: 0 <= i < |rows| ==> ContractOf(rows[i]) != Incomplete
    requires row in Of(rows, kind) && (kind == Less || kind == Greater)
    ensures ContractOf(row) == if kind == Less then LadderOf(event, b)[0] else LadderOf(event, b)[5]
  {
    hide Of, LadderOf, Contracts;
    OfKind(rows, kind);
    var i :| 0 <= i < |rows| && rows[i] == row;
    assert Contracts(rows)[i] in multiset(LadderOf(event, b));
    EndOfLadder(event, b, ContractOf(row));
  }

  lemma {:induction false} EndOfLadder(event: string, b: int, c: Contract)
    requires c in LadderOf(event, b)
    ensures c.Under? ==> c == LadderOf(event, b)[0]
    ensures c.Over? ==> c == LadderOf(event, b)[5]
  {
    hide TailTicker, BucketTicker, Rungs;
    var ladder := LadderOf(event, b);
    var k :| 0 <= k < |ladder| && ladder[k] == c;
    if 0 < k < 5 {
      RungAt(event, b, 4, k - 1);
    }
  }

  lemma {:induction false} LadderIsAccepted(event: string, rows: seq<Strike>, b: int)
    requires multiset(Contracts(rows)) == multiset(LadderOf(event, b))
    ensures Structure(event, rows) == Accepted
  {
    hide FloorLe, Contracts, Rungs, Of, DistinctTickers, AllFloors, LadderDefect, LadderOf;
    LadderShape(event, rows, b);
    MiddleComplete(rows);
    LadderParts(event, rows, b);
    MiddleKinds(rows);
    LadderPasses(event, Of(rows, Less)[0], Sort(Of(rows, Between), FloorLe), Of(rows, Greater)[0], b);
  }

  lemma {:induction false} LadderPasses(event: string, low: Strike, middle: seq<Strike>, high: Strike, b: int)
    requires ContractOf(low) == LadderOf(event, b)[0] && ContractOf(high) == LadderOf(event, b)[5]
    requires Contracts(middle) == Rungs(event, b, 4) && forall i :: 0 <= i < |middle| ==> middle[i].kind == Between
    ensures LadderDefect(event, low, middle, high) == Accepted
  {
    hide Rungs, Contracts, TailTicker, MiddleDefect;
    MiddleIsRungs(event, middle, b);
    assert (b as real).Floor == b;
  }

  ghost predicate IsLadder(event: string, rows: seq<Strike>) {
    exists b: int :: multiset(Contracts(rows)) == multiset(LadderOf(event, b))
  }

  /** The structural checks accept exactly the listings, in any order, of a ladder at some integer base. */
  lemma {:induction false} StructureExactly(event: string, rows: seq<Strike>)
    ensures Structure(event, rows) == Accepted <==> IsLadder(event, rows)
  {
    hide Structure, LadderOf, Contracts;
    if Structure(event, rows) == Accepted {
      var b := AcceptedIsLadder(event, rows);
    } else if IsLadder(event, rows) {
      var b: int :| multiset(Contracts(rows)) == multiset(LadderOf(event, b));
      LadderIsAccepted(event, rows, b);
    }
  }
}
