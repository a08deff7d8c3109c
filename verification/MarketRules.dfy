/** The frozen market validator, and the amendment that relaxes its depth check and nothing else. */
module MarketRules {
  import opened Ladder

  /** One side of an order book, when it is a list. */
  type Side = Option<seq<string>>

  datatype Book = NotAMapping | Book(yes: Side, no: Side)

  datatype Market = Market(
    ticker: string, kind: StrikeType, floor: Option<real>, cap: Option<real>,
    rules: string, active: bool, outcome: Option<string>, expirationValue: Option<string>,
    quoted: bool, book: Option<Book>,
    opens: Option<int>, closes: Option<int>, retrieved: Option<int>)

  datatype Event = Event(ticker: string, series: string, sources: seq<(string, string)>, siblings: Option<seq<Market>>)

  /** What a city and a date fix: the event ticker, the rule text every market must quote, the decision instant. */
  datatype Target = Target(event: string, series: string, rule: string, due: int)

  datatype Reason =
    | IdentityOrSiblings
    | SettlementSource
    | Structural(code: Code)
    | RuleOrState
    | OutcomeLeakage
    | QuoteOrDepthMissing
    | MalformedTime
    | NotActiveAtDecision
    | DepthMissing
    | BoundsAbsent

  datatype Outcome = Valid | Invalid(reason: Reason)

  /** Microseconds. */
  const FIVE_MINUTES := 300_000_000

  const AUTHORITY := "according to The Weather Company"

  predicate HasPrefix(s: string, prefix: string) {
    |prefix| <= |s| && s[..|prefix|] == prefix
  }

  predicate Mentions(s: string, part: string) {
    HasPrefix(s, part) || (s != "" && Mentions(s[1..], part))
  }

  function StrikeOf(m: Market): Strike {
    Strike(m.ticker, m.kind, m.floor, m.cap)
  }

  function Strikes(rows: seq<Market>): (r: seq<Strike>)
    ensures |r| == |rows| && forall i :: 0 <= i < |rows| ==> r[i] == StrikeOf(rows[i])
  {
    if rows == [] then [] else [StrikeOf(rows[0])] + Strikes(rows[1..])
  }

  predicate TwoSided(b: Book) {
    b.Book? && b.yes.Some? && b.yes.value != [] && b.no.Some? && b.no.value != []
  }

  predicate Blank(s: Option<string>) {
    s == None || s == Some("")
  }

  // ----- the checks of one sibling, in order; the depth check is one of them -----

  predicate Named(t: Target, m: Market) {
    HasPrefix(m.ticker, t.event + "-") && Mentions(m.rules, t.rule) && Mentions(m.rules, AUTHORITY) && m.active
  }

  predicate Undecided(m: Market) {
    Blank(m.outcome) && Blank(m.expirationValue)
  }

  predicate OpenAtDecision(t: Target, m: Market)
    requires m.opens.Some? && m.closes.Some? && m.retrieved.Some?
  {
    m.opens.value <= t.due < m.closes.value && t.due <= m.retrieved.value < t.due + FIVE_MINUTES
  }

  predicate Bounded(m: Market) {
    && (m.kind == Between ==> m.floor.Some? && m.cap.Some?)
    && (m.kind == Less ==> m.cap.Some?)
    && (m.kind == Greater ==> m.floor.Some?)
  }

  function BeforeDepth(t: Target, m: Market): Outcome {
    if !Named(t, m) then Invalid(RuleOrState)
    else if !Undecided(m) then Invalid(OutcomeLeakage)
    else if !m.quoted || m.book == None || m.retrieved == None then Invalid(QuoteOrDepthMissing)
    else if m.opens == None || m.closes == None then Invalid(MalformedTime)
    else if !OpenAtDecision(t, m) then Invalid(NotActiveAtDecision)
    else Valid
  }

  function RowCheck(t: Target, m: Market): Outcome {
    if BeforeDepth(t, m) != Valid then BeforeDepth(t, m)
    else if !TwoSided(m.book.value) then Invalid(DepthMissing)
    else if !Bounded(m) then Invalid(BoundsAbsent)
    else Valid
  }

  function RowsCheck(t: Target, rows: seq<Market>): Outcome {
    if rows == [] then Valid
    else if RowCheck(t, rows[0]) != Valid then RowCheck(t, rows[0])
    else RowsCheck(t, rows[1..])
  }

  function Sources(): seq<(string, string)> {
    [("The Weather Company", "https://weather.com/kalshi")]
  }

  function EventCheck(t: Target, e: Event): Outcome {
    if e.ticker != t.event || e.series != t.series || e.siblings == None || |e.siblings.value| != 6 then Invalid(IdentityOrSiblings)
    else if e.sources != Sources() then Invalid(SettlementSource)
    else
      match Structure(t.event, Strikes(e.siblings.value))
      case Refused(code) => Invalid(Structural(code))
      case Accepted => Valid
  }

  /** `validate_market`. */
  function Validate(t: Target, e: Event): Outcome {
    if EventCheck(t, e) != Valid then EventCheck(t, e) else RowsCheck(t, e.siblings.value)
  }

  method ValidateMarket(t: Target, e: Event) returns (r: Outcome)
    ensures r == Validate(t, e)
  {
    hide RowCheck, Structure;
    if e.ticker != t.event || e.series != t.series || e.siblings == None || |e.siblings.value| != 6 {
      return Invalid(IdentityOrSiblings);
    }
    if e.sources != Sources() {
      return Invalid(SettlementSource);
    }
    var rows := e.siblings.value;
    var structure := CheckStructure(t.event, Strikes(rows));
    if structure.Refused? {
      return Invalid(Structural(structure.code));
    }
    var i := 0;
    while i < |rows|
      invariant 0 <= i <= |rows|
      invariant RowsCheck(t, rows) == RowsCheck(t, rows[i..])
    {
      r := RowCheck(t, rows[i]);
      if r != Valid {
        return;
      }
      assert rows[i..][1..] == rows[i + 1..];
      i := i + 1;
    }
    r := Valid;
  }

  lemma {:induction false} SiblingsPresent(t: Target, e: Event)
    requires EventCheck(t, e) == Valid
    ensures e.siblings.Some? && |e.siblings.value| == 6 && Structure(t.event, Strikes(e.siblings.value)) == Accepted
  {
    hide Structure;
  }

  lemma {:induction false} RowsAllValid(t: Target, rows: seq<Market>)
    ensures RowsCheck(t, rows) == Valid <==> forall m :: m in rows ==> RowCheck(t, m) == Valid
  {
    hide RowCheck;
    if rows != [] {
      RowsAllValid(t, rows[1..]);
      assert forall m :: m in rows <==> m == rows[0] || m in rows[1..];
    }
  }

  // ----- the verdict in the fields of the event -----

  ghost predicate Occurs(part: string, s: string) {
    exists i: nat :: i <= |s| && part <= s[i..]
  }

  lemma {:induction false} MentionsExactly(s: string, part: string)
    ensures Mentions(s, part) <==> Occurs(part, s)
  {
    assert s[0..] == s;
    if !HasPrefix(s, part) && s != "" {
      MentionsExactly(s[1..], part);
      if Occurs(part, s) {
        var i: nat :| i <= |s| && part <= s[i..];
        assert s[1..][i - 1..] == s[i..];
      }
      if Occurs(part, s[1..]) {
        var i: nat :| i <= |s[1..]| && part <= s[1..][i..];
        assert s[i + 1..] == s[1..][i..];
      }
    }
  }

  ghost predicate NamedSibling(t: Target, m: Market) {
    && t.event + "-" <= m.ticker
    && Occurs(t.rule, m.rules) && Occurs("according to The Weather Company", m.rules)
    && m.active
  }

  predicate BlankSibling(m: Market) {
    (m.outcome == None || m.outcome == Some("")) && (m.expirationValue == None || m.expirationValue == Some(""))
  }

  predicate QuotedSibling(m: Market) {
    m.quoted && m.book.Some? && m.retrieved.Some?
  }

  predicate DueSibling(t: Target, m: Market)
    requires m.opens.Some? && m.closes.Some? && m.retrieved.Some?
  {
    m.opens.value <= t.due < m.closes.value && t.due <= m.retrieved.value < t.due + 300_000_000
  }

  predicate DeepSibling(m: Market) {
    && m.book.Some? && m.book.value.Book?
    && m.book.value.yes.Some? && |m.book.value.yes.value| > 0
    && m.book.value.no.Some? && |m.book.value.no.value| > 0
  }

  ghost predicate SoundSibling(t: Target, m: Market) {
    && NamedSibling(t, m) && BlankSibling(m) && QuotedSibling(m) && DeepSibling(m)
    && m.opens.Some? && m.closes.Some? && DueSibling(t, m)
  }

  /** The reason is the first thing wrong with the sibling. */
  ghost predicate Complaint(t: Target, m: Market, r: Reason) {
    match r
    case RuleOrState => !NamedSibling(t, m)
    case OutcomeLeakage => NamedSibling(t, m) && !BlankSibling(m)
    case QuoteOrDepthMissing => NamedSibling(t, m) && BlankSibling(m) && !QuotedSibling(m)
    case MalformedTime =>
      NamedSibling(t, m) && BlankSibling(m) && QuotedSibling(m) && (m.opens == None || m.closes == None)
    case NotActiveAtDecision =>
      && NamedSibling(t, m) && BlankSibling(m) && QuotedSibling(m)
      && m.opens.Some? && m.closes.Some? && !DueSibling(t, m)
    case DepthMissing =>
      && NamedSibling(t, m) && BlankSibling(m) && QuotedSibling(m)
      && m.opens.Some? && m.closes.Some? && DueSibling(t, m) && !DeepSibling(m)
    case _ => false
  }

  lemma {:induction false} NamedExactly(t: Target, m: Market)
    ensures Named(t, m) <==> NamedSibling(t, m)
  {
    hide Mentions, Occurs;
    MentionsExactly(m.rules, t.rule);
    MentionsExactly(m.rules, AUTHORITY);
    var prefix := t.event + "-";
    assert HasPrefix(m.ticker, prefix) <==> prefix <= m.ticker;
  }

  lemma {:induction false} RowCheckExactly(t: Target, m: Market)
    requires Bounded(m)
    ensures RowCheck(t, m) == Valid <==> SoundSibling(t, m)
    ensures forall r :: RowCheck(t, m) == Invalid(r) <==> Complaint(t, m, r)
  {
    NamedExactly(t, m);
    hide Named, NamedSibling, Bounded;
  }

  lemma {:induction false} RowsCheckExactly(t: Target, rows: seq<Market>, r: Reason)
    requires forall m :: m in rows ==> Bounded(m)
    ensures RowsCheck(t, rows) == Invalid(r) <==>
            exists i :: 0 <= i < |rows| && Complaint(t, rows[i], r) && forall j :: 0 <= j < i ==> SoundSibling(t, rows[j])
  {
    hide RowCheck, Complaint, SoundSibling, Bounded;
    if rows != [] {
      var rest := rows[1..];
      assert rows[0] in rows && forall m :: m in rest ==> m in rows;
      RowCheckExactly(t, rows[0]);
      RowsCheckExactly(t, rest, r);
      if RowCheck(t, rows[0]) == Valid {
        if i :| 0 <= i < |rows| && Complaint(t, rows[i], r) && forall j :: 0 <= j < i ==> SoundSibling(t, rows[j]) {
          assert !Complaint(t, rows[0], r);
          assert rest[i - 1] == rows[i] && forall j :: 0 <= j < i - 1 ==> rest[j] == rows[j + 1];
        }
        if i :| 0 <= i < |rest| && Complaint(t, rest[i], r) && forall j :: 0 <= j < i ==> SoundSibling(t, rest[j]) {
          assert rows[i + 1] == rest[i] && forall j :: 1 <= j < i + 1 ==> rows[j] == rest[j - 1];
        }
      }
    }
  }

  ghost predicate SoundEvent(t: Target, e: Event) {
    && e.ticker == t.event && e.series == t.series
    && e.sources == [("The Weather Company", "https://weather.com/kalshi")]
    && e.siblings.Some? && |e.siblings.value| == 6 && IsLadder(t.event, Strikes(e.siblings.value))
  }

  lemma {:induction false} EventCheckExactly(t: Target, e: Event)
    ensures EventCheck(t, e) == Valid <==> SoundEvent(t, e)
    ensures SoundEvent(t, e) ==> forall m :: m in e.siblings.value ==> Bounded(m)
  {
    hide Structure, IsLadder, Bounded;
    if e.siblings.Some? {
      StructureExactly(t.event, Strikes(e.siblings.value));
      if Structure(t.event, Strikes(e.siblings.value)) == Accepted {
        LadderBounded(t.event, e.siblings.value);
      }
    }
  }

  /**
   The frozen policy accepts exactly: the target's event and series, the one settlement source, six siblings that
   list a ladder, and each of them named for the event, quoting both rule texts, active, without a result, quoted, two
   sided, open at the decision and retrieved within five minutes of it.
  */
  lemma {:induction false} ValidExactly(t: Target, e: Event)
    ensures Validate(t, e) == Valid <==> SoundEvent(t, e) && forall m :: m in e.siblings.value ==> SoundSibling(t, m)
  {
    hide EventCheck, RowCheck, SoundEvent, SoundSibling, Bounded;
    EventCheckExactly(t, e);
    if EventCheck(t, e) == Valid {
      SiblingsPresent(t, e);
      RowsAllValid(t, e.siblings.value);
      forall m | m in e.siblings.value ensures RowCheck(t, m) == Valid <==> SoundSibling(t, m) {
        RowCheckExactly(t, m);
      }
    }
  }

  /** A reason other than the event's own is given exactly as the first complaint about the first unsound sibling. */
  lemma {:induction false} SiblingReasonExactly(t: Target, e: Event, r: Reason)
    requires !r.IdentityOrSiblings? && !r.SettlementSource? && !r.Structural?
    ensures Validate(t, e) == Invalid(r) <==>
            && SoundEvent(t, e)
            && exists i :: 0 <= i < 6 && Complaint(t, e.siblings.value[i], r)
                           && forall j :: 0 <= j < i ==> SoundSibling(t, e.siblings.value[j])
  {
    hide RowCheck, SoundSibling, Bounded, Complaint, Structure, IsLadder;
    EventCheckExactly(t, e);
    if EventCheck(t, e) == Valid {
      SiblingsPresent(t, e);
      RowsCheckExactly(t, e.siblings.value, r);
    }
  }

  /** The event's own reasons, in their order. */
  lemma {:induction false} EventReasonExactly(t: Target, e: Event)
    ensures var identified :=
              e.ticker == t.event && e.series == t.series && e.siblings.Some? && |e.siblings.value| == 6;
            var sourced := e.sources == [("The Weather Company", "https://weather.com/kalshi")];
            && (Validate(t, e) == Invalid(IdentityOrSiblings) <==> !identified)
            && (Validate(t, e) == Invalid(SettlementSource) <==> identified && !sourced)
            && ((exists code :: Validate(t, e) == Invalid(Structural(code))) <==>
                  identified && sourced && !IsLadder(t.event, Strikes(e.siblings.value)))
            && (forall code :: Validate(t, e) == Invalid(Structural(code)) <==>
                  identified && sourced && Structure(t.event, Strikes(e.siblings.value)) == Refused(code))
  {
    hide RowCheck, Structure, IsLadder, Bounded;
    EventCheckExactly(t, e);
    if EventCheck(t, e) == Valid {
      RowReasons(t, e.siblings.value);
    } else if EventCheck(t, e).reason.Structural? {
      assert Validate(t, e) == Invalid(Structural(EventCheck(t, e).reason.code));
    }
  }

  lemma {:induction false} RowReasons(t: Target, rows: seq<Market>)
    ensures var r := RowsCheck(t, rows);
            r.Invalid? ==> !r.reason.IdentityOrSiblings? && !r.reason.SettlementSource? && !r.reason.Structural?
  {
    hide Named, Undecided, Bounded;
    if rows != [] {
      RowReasons(t, rows[1..]);
    }
  }

  /** Whatever order they are listed in, the siblings of an accepted event partition the integers. */
  lemma {:induction false} ValidEventPartitionsIntegers(t: Target, e: Event, v: int) returns (i: nat)
    requires Validate(t, e) == Valid
    ensures e.siblings.Some? && i < |e.siblings.value| == 6
    ensures Settles(ContractOf(StrikeOf(e.siblings.value[i])), v)
    ensures forall j :: 0 <= j < 6 && Settles(ContractOf(StrikeOf(e.siblings.value[j])), v) ==> j == i
  {
    hide Structure, Settles, ContractOf;
    SiblingsPresent(t, e);
    i := AcceptedPartitionsIntegers(t.event, Strikes(e.siblings.value), v);
    assert forall j :: 0 <= j < 6 ==> Strikes(e.siblings.value)[j] == StrikeOf(e.siblings.value[j]);
  }

  /** The last check of each sibling can never fire: an accepted ladder has every bound it needs. */
  lemma {:induction false} BoundsNeverAbsent(t: Target, e: Event)
    ensures Validate(t, e) != Invalid(BoundsAbsent)
  {
    hide Structure, BeforeDepth;
    if EventCheck(t, e) == Valid {
      var rows := e.siblings.value;
      LadderBounded(t.event, rows);
      RowsNeverAbsent(t, rows);
    }
  }

  lemma {:induction false} LadderBounded(event: string, rows: seq<Market>)
    requires Structure(event, Strikes(rows)) == Accepted
    ensures forall m :: m in rows ==> Bounded(m)
  {
    hide Structure, LadderOf;
    var strikes := Strikes(rows);
    var b := AcceptedIsLadder(event, strikes);
    LadderShape(event, strikes, b);
    forall m | m in rows ensures Bounded(m) {
      var i :| 0 <= i < |rows| && rows[i] == m;
      assert ContractOf(strikes[i]) != Incomplete;
    }
  }

  lemma {:induction false} RowsNeverAbsent(t: Target, rows: seq<Market>)
    requires forall m :: m in rows ==> Bounded(m)
    ensures RowsCheck(t, rows) != Invalid(BoundsAbsent)
  {
    if rows != [] {
      assert rows[0] in rows;
      assert forall m :: m in rows[1..] ==> m in rows;
      RowsNeverAbsent(t, rows[1..]);
      BeforeDepthReasons(t, rows[0]);
      hide Bounded, BeforeDepth;
    }
  }

  lemma {:induction false} BeforeDepthReasons(t: Target, m: Market)
    ensures BeforeDepth(t, m) != Invalid(BoundsAbsent) && BeforeDepth(t, m) != Invalid(DepthMissing)
  {
    hide Named, Undecided;
  }

  // ----- the amendment -----

  datatype Executability = Executable | Abstain

  /** `executability_status`. */
  function ExecutabilityOf(b: Option<Book>): Executability {
    if b.Some? && TwoSided(b.value) then Executable else Abstain
  }

  function Filler(): Book {
    var filler := ["DEPTH_CHECK_SUPERSEDED_BY_PRE_FIRST_EVENT_AMENDMENT_V1"];
    Book(Some(filler), Some(filler))
  }

  function NeutralRow(m: Market): Market {
    m.(book := Some(Filler()))
  }

  function NeutralRows(rows: seq<Market>): (r: seq<Market>)
    ensures |r| == |rows| && forall i :: 0 <= i < |rows| ==> r[i] == NeutralRow(rows[i])
  {
    if rows == [] then [] else [NeutralRow(rows[0])] + NeutralRows(rows[1..])
  }

  /** `depth_neutral_view`: every book replaced by one that passes. */
  function DepthNeutral(e: Event): Event
    requires e.siblings.Some?
  {
    e.(siblings := Some(NeutralRows(e.siblings.value)))
  }

  lemma {:induction false} NeutralStrikes(rows: seq<Market>)
    ensures Strikes(NeutralRows(rows)) == Strikes(rows)
  {
  }

  lemma {:induction false} NeutralEventCheck(t: Target, e: Event)
    requires e.siblings.Some?
    ensures EventCheck(t, DepthNeutral(e)) == EventCheck(t, e)
  {
    hide Structure, NeutralRow;
    NeutralStrikes(e.siblings.value);
  }

  /** On one sibling that carries a book, the view changes the verdict only by passing the depth check. */
  lemma {:induction false} NeutralRowCheck(t: Target, m: Market)
    ensures RowCheck(t, m) == Valid <==> RowCheck(t, NeutralRow(m)) == Valid && ExecutabilityOf(m.book) == Executable
    ensures RowCheck(t, NeutralRow(m)) != Invalid(DepthMissing)
    ensures m.book.Some? && RowCheck(t, m) != Invalid(DepthMissing) ==> RowCheck(t, m) == RowCheck(t, NeutralRow(m))
  {
  }

  ghost predicate AllExecutable(rows: seq<Market>) {
    forall m :: m in rows ==> ExecutabilityOf(m.book) == Executable
  }

  lemma {:induction false} NeutralMembers(rows: seq<Market>)
    ensures forall n :: n in NeutralRows(rows) <==> exists m :: m in rows && n == NeutralRow(m)
  {
  }

  /**
   Conservative amendment: the frozen validator accepts an event exactly when it accepts the depth-neutral
   view and every sibling's book is executable.
  */
  lemma {:induction false} AmendmentIsConservative(t: Target, e: Event)
    requires e.siblings.Some?
    ensures Validate(t, e) == Valid <==> Validate(t, DepthNeutral(e)) == Valid && AllExecutable(e.siblings.value)
  {
    hide EventCheck, RowCheck, NeutralRow, ExecutabilityOf;
    var rows := e.siblings.value;
    NeutralEventCheck(t, e);
    if EventCheck(t, e) == Valid {
      RowsAllValid(t, rows);
      RowsAllValid(t, NeutralRows(rows));
      NeutralMembers(rows);
      forall m | m in rows
        ensures RowCheck(t, m) == Valid <==> RowCheck(t, NeutralRow(m)) == Valid && ExecutabilityOf(m.book) == Executable {
        NeutralRowCheck(t, m);
      }
    }
  }

  /**
   Nothing else is relaxed: when every sibling carries a book, the two verdicts are the same
   unless the frozen validator's own complaint is the missing depth.
  */
  lemma {:induction false} OnlyDepthIsRelaxed(t: Target, e: Event)
    requires e.siblings.Some? && forall m :: m in e.siblings.value ==> m.book.Some?
    requires Validate(t, e) != Invalid(DepthMissing)
    ensures Validate(t, DepthNeutral(e)) == Validate(t, e)
  {
    hide EventCheck, RowCheck, NeutralRow;
    NeutralEventCheck(t, e);
    if EventCheck(t, e) == Valid {
      SameUnlessDepth(t, e.siblings.value);
    }
  }

  lemma {:induction false} SameUnlessDepth(t: Target, rows: seq<Market>)
    requires forall m :: m in rows ==> m.book.Some?
    requires RowsCheck(t, rows) != Invalid(DepthMissing)
    ensures RowsCheck(t, NeutralRows(rows)) == RowsCheck(t, rows)
  {
    hide RowCheck, NeutralRow;
    if rows != [] {
      assert rows[0] in rows;
      assert forall m :: m in rows[1..] ==> m in rows;
      NeutralRowCheck(t, rows[0]);
      assert NeutralRows(rows)[1..] == NeutralRows(rows[1..]);
      if RowCheck(t, rows[0]) == Valid {
        SameUnlessDepth(t, rows[1..]);
      }
    }
  }

  /** The books are only hidden from the validator: events that differ in books alone get the same view and verdict. */
  lemma {:induction false} ViewIgnoresBooks(rows: seq<Market>, other: seq<Market>)
    requires |rows| == |other| && forall i :: 0 <= i < |rows| ==> rows[i].(book := None) == other[i].(book := None)
    ensures NeutralRows(rows) == NeutralRows(other)
  {
  }

  // ----- acquisition -----

  datatype Acquired = Failed(reason: Reason) | Acquired(event: Event, statuses: seq<(string, Executability)>)

  function Statuses(rows: seq<Market>): (r: seq<(string, Executability)>)
    ensures |r| == |rows| && forall i :: 0 <= i < |rows| ==> r[i] == (rows[i].ticker, ExecutabilityOf(rows[i].book))
  {
    if rows == [] then [] else [(rows[0].ticker, ExecutabilityOf(rows[0].book))] + Statuses(rows[1..])
  }

  /** The end of `acquire_market`: validate the view, keep the real books and report each market's status. */
  method AcquireMarket(t: Target, assembled: Event) returns (r: Acquired)
    requires assembled.siblings.Some?
    ensures r.Acquired? <==> Validate(t, DepthNeutral(assembled)) == Valid
    ensures r.Acquired? ==> r.event == assembled && r.statuses == Statuses(assembled.siblings.value)
    ensures r.Failed? ==> Validate(t, DepthNeutral(assembled)) == Invalid(r.reason)
  {
    hide Validate, DepthNeutral;
    var outcome := ValidateMarket(t, DepthNeutral(assembled));
    match outcome {
      case Valid => return Acquired(assembled, Statuses(assembled.siblings.value));
      case Invalid(reason) => return Failed(reason);
    }
  }

  ghost predicate AllReportExecutable(statuses: seq<(string, Executability)>) {
    forall i :: 0 <= i < |statuses| ==> statuses[i].1 == Executable
  }

  lemma {:induction false} StatusesReport(rows: seq<Market>)
    ensures AllReportExecutable(Statuses(rows)) <==> AllExecutable(rows)
  {
  }

  /** An acquired event whose markets all report EXECUTABLE is one the frozen policy accepts, and conversely. */
  lemma {:induction false} AllExecutableMeansFrozen(t: Target, e: Event)
    requires e.siblings.Some?
    ensures Validate(t, e) == Valid <==>
            Validate(t, DepthNeutral(e)) == Valid && AllReportExecutable(Statuses(e.siblings.value))
  {
    hide Validate, DepthNeutral, AllReportExecutable, AllExecutable;
    AmendmentIsConservative(t, e);
    StatusesReport(e.siblings.value);
  }
}
