/** Contract versions: each market's history is a chain in which only the newest version can be in force. */
module Registry {
  datatype Option<+T> = None | Some(value: T)

  datatype Status = Unparsed | Parsed | Valid | Ambiguous | Conflicting | Unsupported | Stale | Invalidated

  /** One contract version; `semantics` stands for everything the semantic hash covers. */
  datatype Version = Version(
    id: nat, ticker: string, semantics: string, status: Status, supersedes: Option<nat>, issues: seq<string>)

  predicate Retired(v: Version) {
    v.status == Stale || v.status == Invalidated
  }

  function Retire(v: Version): Version {
    if Retired(v) then v else v.(status := Stale)
  }

  /** A market's history after a version is offered: the same semantics again change nothing. */
  function Offered(history: seq<Version>, v: Version): seq<Version> {
    if history == [] then [v]
    else
      var last := history[|history| - 1];
      if last.semantics == v.semantics then history
      else history[..|history| - 1] + [Retire(last), v.(supersedes := Some(last.id))]
  }

  function InvalidatedBy(v: Version, cause: string): Version {
    v.(status := Invalidated, issues := v.issues + [cause])
  }

  function LastInvalidated(history: seq<Version>, cause: string): seq<Version>
    requires history != []
  {
    history[..|history| - 1] + [InvalidatedBy(history[|history| - 1], cause)]
  }

  function HistoryOf(versions: map<string, seq<Version>>, ticker: string): seq<Version> {
    if ticker in versions then versions[ticker] else []
  }

  class ContractRegistry {
    var versions: map<string, seq<Version>>
    var invalidations: seq<(string, string, int)>

    constructor ()
      ensures versions == map[] && invalidations == []
    {
      versions := map[];
      invalidations := [];
    }

    method Add(v: Version) returns (current: Version)
      modifies this`versions
      ensures HistoryOf(versions, v.ticker) == Offered(HistoryOf(old(versions), v.ticker), v)
      ensures forall t :: t != v.ticker ==> HistoryOf(versions, t) == HistoryOf(old(versions), t)
      ensures HistoryOf(versions, v.ticker) != []
      ensures current == HistoryOf(versions, v.ticker)[|HistoryOf(versions, v.ticker)| - 1]
    {
      if v.ticker !in versions {
        versions := versions[v.ticker := []];
      }
      var history := versions[v.ticker];
      if history != [] && history[|history| - 1].semantics == v.semantics {
        return history[|history| - 1];
      }
      current := v;
      if history != [] {
        var superseded := history[|history| - 1];
        if !Retired(superseded) {
          history := history[|history| - 1 := superseded.(status := Stale)];
        }
        current := v.(supersedes := Some(superseded.id));
      }
      history := history + [current];
      versions := versions[v.ticker := history];
    }

    method Invalidate(ticker: string, cause: string, now: int)
      modifies this
      ensures HistoryOf(old(versions), ticker) == [] ==> versions == old(versions) && invalidations == old(invalidations)
      ensures HistoryOf(old(versions), ticker) != [] ==>
                HistoryOf(versions, ticker) == LastInvalidated(HistoryOf(old(versions), ticker), cause)
                && invalidations == old(invalidations) + [(ticker, cause, now)]
      ensures forall t :: t != ticker ==> HistoryOf(versions, t) == HistoryOf(old(versions), t)
    {
      var history := HistoryOf(versions, ticker);
      if history == [] {
        return;
      }
      var last := |history| - 1;
      history := history[last := InvalidatedBy(history[last], cause)];
      versions := versions[ticker := history];
      invalidations := invalidations + [(ticker, cause, now)];
    }

    method Current(ticker: string) returns (v: Option<Version>)
      ensures v == var h := HistoryOf(versions, ticker); if h == [] then None else Some(h[|h| - 1])
    {
      var history := HistoryOf(versions, ticker);
      return if history == [] then None else Some(history[|history| - 1]);
    }
  }

  // ----- what every history keeps -----

  /** Every version but the newest is retired, names its predecessor, and differs from it in meaning. */
  ghost predicate Chain(h: seq<Version>) {
    && (forall i :: 0 <= i < |h| - 1 ==> Retired(h[i]))
    && (forall i :: 0 < i < |h| ==> h[i].supersedes == Some(h[i - 1].id) && h[i].semantics != h[i - 1].semantics)
  }

  /** What a version records for good; only its status and issues may still change. */
  ghost predicate SameRecord(a: Version, b: Version) {
    a.(status := b.status, issues := b.issues) == b && (Retired(a) ==> Retired(b)) && a.issues <= b.issues
  }

  ghost predicate Grows(a: seq<Version>, b: seq<Version>) {
    |a| <= |b| && forall i :: 0 <= i < |a| ==> SameRecord(a[i], b[i])
  }

  datatype Change = Offer(version: Version) | Reject(cause: string)

  /** A market's history after any sequence of offers and invalidations. */
  ghost function After(h: seq<Version>, changes: seq<Change>): seq<Version>
    decreases |changes|
  {
    if changes == [] then h
    else After(Changed(h, changes[0]), changes[1..])
  }

  ghost function Changed(h: seq<Version>, c: Change): seq<Version> {
    match c
    case Offer(v) => Offered(h, v)
    case Reject(cause) => if h == [] then h else LastInvalidated(h, cause)
  }

  lemma {:induction false} ChangeKeepsChain(h: seq<Version>, c: Change)
    requires Chain(h)
    ensures Chain(Changed(h, c)) && Grows(h, Changed(h, c))
  {
  }

  /** Over every run, histories stay chains and only ever grow: no recorded version is rewritten or reinstated. */
  lemma {:induction false} HistoriesAreChains(h: seq<Version>, changes: seq<Change>)
    requires Chain(h)
    ensures Chain(After(h, changes)) && Grows(h, After(h, changes))
    decreases |changes|
  {
    if changes != [] {
      var next := Changed(h, changes[0]);
      ChangeKeepsChain(h, changes[0]);
      HistoriesAreChains(next, changes[1..]);
      var last := After(next, changes[1..]);
      forall i | 0 <= i < |h| ensures SameRecord(h[i], last[i]) {
        assert SameRecord(h[i], next[i]) && SameRecord(next[i], last[i]);
      }
    }
  }

  /**
   An invalidated contract stays out of force until its meaning changes: offering the same semantics again,
   however often, returns the invalidated version.
  */
  lemma {:induction false} SameMeaningNeverReinstates(h: seq<Version>, offers: seq<Change>)
    requires h != [] && Retired(h[|h| - 1])
    requires forall c :: c in offers ==> c.Offer? && c.version.semantics == h[|h| - 1].semantics
    ensures After(h, offers) == h
    decreases |offers|
  {
    if offers != [] {
      assert offers[0] in offers;
      assert forall c :: c in offers[1..] ==> c in offers;
      SameMeaningNeverReinstates(h, offers[1..]);
    }
  }

  /** What an offer does, version by version: all but the newest stay, the newest goes stale unless it is out of force. */
  lemma {:induction false} OfferedExactly(h: seq<Version>, v: Version)
    ensures h == [] ==> Offered(h, v) == [v]
    ensures h != [] && v.semantics == h[|h| - 1].semantics ==> Offered(h, v) == h
    ensures h != [] && v.semantics != h[|h| - 1].semantics ==>
              var last, next := h[|h| - 1], Offered(h, v);
              && |next| == |h| + 1
              && (forall i :: 0 <= i < |h| - 1 ==> next[i] == h[i])
              && next[|h| - 1] == last.(status := if last.status == Invalidated then Invalidated else Stale)
              && next[|h|] == v.(supersedes := Some(last.id))
  {
  }

  /** What an invalidation does: the newest version is invalidated and gains the cause as its last issue. */
  lemma {:induction false} InvalidatedExactly(h: seq<Version>, cause: string)
    requires h != []
    ensures var last, next := h[|h| - 1], LastInvalidated(h, cause);
            && |next| == |h|
            && (forall i :: 0 <= i < |h| - 1 ==> next[i] == h[i])
            && next[|h| - 1] == last.(status := Invalidated, issues := last.issues + [cause])
  {
  }
}
