/** Point-in-time binding of a market to its exchange event: identity never switches. */
module EventBinding {
  import opened Ordering

  datatype Option<+T> = None | Some(value: T)

  /** The archive receipt's identity hashes all its facts, so one number stands for a receipt. */
  datatype Observation = Observation(
    id: string, market: string, marketEvent: string, event: string, series: string,
    marketVersion: string, eventVersion: string, observedAt: int, provenance: string,
    verified: bool, receipt: Option<nat>)

  datatype Binding =
    | ReusedId
    | Missing
    | Disagreement
    | Bound(row: Observation, proven: bool)
    | Unverifiable(row: Observation)

  predicate Conflicted(b: Binding) {
    b == ReusedId || b == Disagreement
  }

  /** An archive's verdict on an observation's receipt and material; None when no archive is given. */
  type Archive = Option<Observation -> bool>

  predicate KeyLe(a: Observation, b: Observation) {
    a.observedAt < b.observedAt || (a.observedAt == b.observedAt && TextLe(a.id, b.id))
  }

  lemma {:induction false} KeyLeTotal(a: Observation, b: Observation, c: Observation)
    ensures KeyLe(a, b) || KeyLe(b, a)
    ensures KeyLe(a, b) && KeyLe(b, a) ==> a.id == b.id
    ensures KeyLe(a, b) && KeyLe(b, c) ==> KeyLe(a, c)
  {
    TextLeTotal(a.id, b.id);
    if TextLe(a.id, b.id) && TextLe(b.id, c.id) {
      TextLeTransitive(a.id, b.id, c.id);
    }
  }

  lemma {:induction false} KeyLePreorder()
    ensures TotalPreorder(KeyLe)
  {
    forall a, b, c ensures KeyLe(a, b) || KeyLe(b, a)
      ensures KeyLe(a, b) && KeyLe(b, c) ==> KeyLe(a, c) {
      KeyLeTotal(a, b, c);
    }
  }

  // ----- the binding as a function of a set of observations -----

  ghost predicate Reused(s: set<Observation>) {
    exists a, b :: a in s && b in s && a.id == b.id && a != b
  }

  ghost predicate EligibleRow(o: Observation, market: string, asOf: int) {
    o.market == market && o.observedAt <= asOf
  }

  ghost function Eligible(s: set<Observation>, market: string, asOf: int): set<Observation> {
    set o | o in s && EligibleRow(o, market, asOf)
  }

  ghost predicate SameFacts(a: Observation, b: Observation) {
    a.marketEvent == b.marketEvent && a.event == b.event && a.series == b.series
  }

  ghost predicate SameVersions(a: Observation, b: Observation) {
    a.marketVersion == b.marketVersion && a.eventVersion == b.eventVersion
  }

  /** Market and event disagree, two identities, or two versions at one instant. */
  ghost predicate Disagrees(s: set<Observation>) {
    || (exists o :: o in s && o.marketEvent != o.event)
    || (exists a, b :: a in s && b in s && !SameFacts(a, b))
    || (exists a, b :: a in s && b in s && a.observedAt == b.observedAt && !SameVersions(a, b))
  }

  ghost predicate IsLatest(o: Observation, s: set<Observation>) {
    o in s && forall p :: p in s ==> KeyLe(p, o)
  }

  ghost function Resolve(o: Observation, archive: Archive): Binding {
    if !o.verified then Bound(o, false)
    else if archive == None || o.receipt == None || !archive.value(o) then Unverifiable(o)
    else Bound(o, true)
  }

  ghost predicate Binds(s: set<Observation>, market: string, asOf: int, archive: Archive, b: Binding) {
    var rows := Eligible(s, market, asOf);
    if Reused(s) then b == ReusedId
    else if rows == {} then b == Missing
    else if Disagrees(rows) then b == Disagreement
    else exists o :: IsLatest(o, rows) && b == Resolve(o, archive)
  }

  /** A set of observations has exactly one binding. */
  lemma {:induction false} BindingUnique(s: set<Observation>, market: string, asOf: int, archive: Archive, b: Binding, c: Binding)
    requires Binds(s, market, asOf, archive, b) && Binds(s, market, asOf, archive, c)
    ensures b == c
  {
    var rows := Eligible(s, market, asOf);
    if !Reused(s) && rows != {} && !Disagrees(rows) {
      var o :| IsLatest(o, rows) && b == Resolve(o, archive);
      var p :| IsLatest(p, rows) && c == Resolve(p, archive);
      KeyLeTotal(o, p, o);
    }
  }

  /** An eligible observation: of this market and not after as-of. */
  ghost predicate Counts(s: set<Observation>, market: string, asOf: int, o: Observation) {
    o in s && o.market == market && o.observedAt <= asOf
  }

  ghost predicate SharedId(s: set<Observation>) {
    exists a, b :: a in s && b in s && a.id == b.id && a != b
  }

  /** Two eligible observations contradict each other, or one contradicts itself. */
  ghost predicate Contradicts(a: Observation, b: Observation) {
    || a.marketEvent != a.event || b.marketEvent != b.event
    || a.marketEvent != b.marketEvent || a.event != b.event || a.series != b.series
    || (a.observedAt == b.observedAt && (a.marketVersion != b.marketVersion || a.eventVersion != b.eventVersion))
  }

  ghost predicate Contradiction(s: set<Observation>, market: string, asOf: int) {
    exists a, b :: Counts(s, market, asOf, a) && Counts(s, market, asOf, b) && Contradicts(a, b)
  }

  /** The eligible observation that is latest, by the greater id where the instants are the same. */
  ghost predicate Last(s: set<Observation>, market: string, asOf: int, o: Observation) {
    && Counts(s, market, asOf, o)
    && forall p :: Counts(s, market, asOf, p) ==>
         p.observedAt < o.observedAt || (p.observedAt == o.observedAt && TextLe(p.id, o.id))
  }

  ghost predicate Attested(o: Observation, archive: Archive) {
    archive.Some? && o.receipt.Some? && archive.value(o)
  }

  lemma {:induction false} ContradictionExactly(s: set<Observation>, market: string, asOf: int)
    ensures Contradiction(s, market, asOf) <==> Disagrees(Eligible(s, market, asOf))
    ensures forall o :: Last(s, market, asOf, o) <==> IsLatest(o, Eligible(s, market, asOf))
  {
    var rows := Eligible(s, market, asOf);
    forall o ensures o in rows <==> Counts(s, market, asOf, o) {
    }
    hide Eligible, Counts;
    if o :| o in rows && o.marketEvent != o.event {
      assert Contradicts(o, o);
    }
    if a, b :| a in rows && b in rows && !SameFacts(a, b) {
      assert Contradicts(a, b);
    }
    if a, b :| a in rows && b in rows && a.observedAt == b.observedAt && !SameVersions(a, b) {
      assert Contradicts(a, b);
    }
    forall o ensures Last(s, market, asOf, o) <==> IsLatest(o, rows) {
      forall p ensures KeyLe(p, o) <==> p.observedAt < o.observedAt || (p.observedAt == o.observedAt && TextLe(p.id, o.id)) {
      }
      hide KeyLe;
    }
  }

  /** Each verdict's exact condition in the fields of the observations. */
  lemma {:induction false} VerdictExactly(s: set<Observation>, market: string, asOf: int, archive: Archive, x: Binding)
    requires Binds(s, market, asOf, archive, x)
    ensures x == ReusedId <==> SharedId(s)
    ensures x == Missing <==> !SharedId(s) && forall o :: !Counts(s, market, asOf, o)
    ensures x == Disagreement <==> !SharedId(s) && Contradiction(s, market, asOf)
    ensures x.Bound? <==>
            !SharedId(s) && !Contradiction(s, market, asOf)
            && exists o :: Last(s, market, asOf, o) && (o.verified ==> Attested(o, archive))
    ensures x.Bound? ==> Last(s, market, asOf, x.row) && (x.proven <==> x.row.verified)
    ensures x.Unverifiable? <==>
            !SharedId(s) && !Contradiction(s, market, asOf)
            && exists o :: Last(s, market, asOf, o) && o.verified && !Attested(o, archive)
    ensures x.Unverifiable? ==> Last(s, market, asOf, x.row)
  {
    ContradictionExactly(s, market, asOf);
    var rows := Eligible(s, market, asOf);
    assert rows == {} <==> forall o :: !Counts(s, market, asOf, o) by {
      forall o ensures o in rows <==> Counts(s, market, asOf, o) {
      }
    }
    assert SharedId(s) <==> Reused(s);
    if rows != {} && !SharedId(s) {
      OneLast(s, market, asOf);
    } else {
      assert forall o :: Last(s, market, asOf, o) ==> Counts(s, market, asOf, o);
    }
    assert Contradiction(s, market, asOf) ==> exists o :: Counts(s, market, asOf, o);
    hide Disagrees, Eligible, IsLatest, Contradiction, Last, Counts, SharedId, Reused;
  }

  lemma {:induction false} OneLast(s: set<Observation>, market: string, asOf: int)
    requires !SharedId(s)
    ensures forall o, p :: Last(s, market, asOf, o) && Last(s, market, asOf, p) ==> o == p
  {
    forall o, p | Last(s, market, asOf, o) && Last(s, market, asOf, p) ensures o == p {
      KeyLeTotal(o, p, o);
      assert o.id == p.id;
    }
  }

  // ----- identity over time -----

  /** Conflict is permanent as observations arrive and as-of moves on. */
  lemma {:induction false} ConflictIsPermanent(
    s: set<Observation>, t: set<Observation>, market: string, a: int, b: int, archive: Archive, x: Binding, y: Binding)
    requires s <= t && a <= b
    requires Binds(s, market, a, archive, x) && Binds(t, market, b, archive, y)
    requires Conflicted(x)
    ensures Conflicted(y)
  {
  }

  lemma {:induction false} NotConflicted(s: set<Observation>, market: string, a: int, archive: Archive, x: Binding)
    requires Binds(s, market, a, archive, x)
    ensures Conflicted(x) <==> Reused(s) || Disagrees(Eligible(s, market, a))
    ensures x.Bound? || x.Unverifiable? ==> IsLatest(x.row, Eligible(s, market, a))
    ensures x == Missing ==> Eligible(s, market, a) == {}
  {
  }

  lemma {:induction false} GrowthKeepsDefects(s: set<Observation>, t: set<Observation>, market: string, a: int, b: int)
    requires s <= t && a <= b
    ensures Eligible(s, market, a) <= Eligible(t, market, b)
    ensures Reused(s) ==> Reused(t)
    ensures Disagrees(Eligible(s, market, a)) ==> Disagrees(Eligible(t, market, b))
  {
  }

  /**
   Identity never switches: once a market is bound, later observations and later as-of times either keep
   its event and series or bring a conflict, or an archive row that cannot be verified.
  */
  lemma {:induction false} IdentityNeverSwitches(
    s: set<Observation>, t: set<Observation>, market: string, a: int, b: int, archive: Archive, x: Binding, y: Binding)
    requires s <= t && a <= b && x.Bound?
    requires Binds(s, market, a, archive, x) && Binds(t, market, b, archive, y)
    ensures Conflicted(y) || ((y.Bound? || y.Unverifiable?) && y.row.event == x.row.event && y.row.series == x.row.series)
  {
    GrowthKeepsDefects(s, t, market, a, b);
    NotConflicted(s, market, a, archive, x);
    NotConflicted(t, market, b, archive, y);
    if !Conflicted(y) {
      assert x.row in Eligible(t, market, b) && y.row in Eligible(t, market, b);
      assert SameFacts(x.row, y.row);
    }
  }

  /** Observations after as-of matter only if they reuse an observation id. */
  lemma {:induction false} FutureHasNoEffect(
    s: set<Observation>, later: set<Observation>, market: string, asOf: int, archive: Archive, x: Binding, y: Binding)
    requires forall o :: o in later ==> o.observedAt > asOf
    requires Binds(s, market, asOf, archive, x) && Binds(s + later, market, asOf, archive, y)
    ensures y == if Reused(s + later) then ReusedId else x
  {
    assert Eligible(s + later, market, asOf) == Eligible(s, market, asOf);
    if !Reused(s + later) {
      assert !Reused(s);
      BindingUnique(s, market, asOf, archive, x, y);
    }
  }

  /** A proven binding is downgraded by any later unverified observation of the same identity. */
  lemma {:induction false} ProvenCanBeDowngraded(
    s: set<Observation>, o: Observation, market: string, asOf: int, archive: Archive, x: Binding, y: Binding)
    requires Binds(s, market, asOf, archive, x) && x.Bound? && x.proven
    requires o.market == market && SameFacts(o, x.row) && !o.verified
    requires o.observedAt <= asOf && (forall p :: p in s ==> p.id != o.id && p.observedAt < o.observedAt)
    requires Binds(s + {o}, market, asOf, archive, y)
    ensures y == Bound(o, false)
  {
    NotConflicted(s, market, asOf, archive, x);
    var before, rows := Eligible(s, market, asOf), Eligible(s + {o}, market, asOf);
    assert rows == before + {o};
    AddedAgrees(before, o, x.row);
    assert !Reused(s + {o});
    assert IsLatest(o, rows) by {
      TextLeTotal(o.id, o.id);
    }
    hide Disagrees, Reused, IsLatest, Eligible;
    assert Binds(s + {o}, market, asOf, archive, Bound(o, false));
    BindingUnique(s + {o}, market, asOf, archive, y, Bound(o, false));
  }

  lemma {:induction false} AddedAgrees(rows: set<Observation>, o: Observation, one: Observation)
    requires !Disagrees(rows) && one in rows && SameFacts(o, one)
    requires forall p :: p in rows ==> p.observedAt < o.observedAt
    ensures !Disagrees(rows + {o})
  {
  }

  /** The binding is proven exactly when its latest eligible observation is archive-verified. */
  lemma {:induction false} ProvenExactly(s: set<Observation>, market: string, asOf: int, archive: Archive, x: Binding, latest: Observation)
    requires Binds(s, market, asOf, archive, x) && !Conflicted(x)
    requires IsLatest(latest, Eligible(s, market, asOf))
    ensures x.Bound? && x.proven <==>
              latest.verified && archive.Some? && latest.receipt.Some? && archive.value(latest)
  {
    NotConflicted(s, market, asOf, archive, x);
    if x.Bound? || x.Unverifiable? {
      KeyLeTotal(latest, x.row, latest);
      assert latest in s && x.row in s;
      assert latest == x.row;
    }
  }

  // ----- `bind_market_event` as it runs -----

  function Members(rows: seq<Observation>): set<Observation> {
    set o | o in rows
  }

  /** One pass for reused identifiers, a sort, one pass for versions, and the last row. */
  method BindMarketEvent(rows: seq<Observation>, market: string, asOf: int, archive: Archive) returns (b: Binding)
    ensures Binds(Members(rows), market, asOf, archive, b)
  {
    var byId: map<string, Observation> := map[];
    var conflict := false;
    var i := 0;
    while i < |rows|
      invariant 0 <= i <= |rows|
      invariant forall j :: 0 <= j < i ==> rows[j].id in byId
      invariant forall d :: d in byId ==> byId[d].id == d && byId[d] in rows
      invariant !conflict ==> forall j :: 0 <= j < i ==> byId[rows[j].id] == rows[j]
      invariant conflict ==> Reused(Members(rows))
    {
      if rows[i].id !in byId {
        byId := byId[rows[i].id := rows[i]];
      } else if byId[rows[i].id] != rows[i] {
        assert byId[rows[i].id] in Members(rows) && rows[i] in Members(rows);
        conflict := true;
      }
      i := i + 1;
    }
    if conflict {
      return ReusedId;
    }
    assert !Reused(Members(rows)) by {
      forall a, c | a in Members(rows) && c in Members(rows) && a.id == c.id ensures a == c {
        assert byId[a.id] == a && byId[c.id] == c;
      }
    }
    var eligible := Filter(rows, market, asOf);
    assert Members(eligible) == Eligible(Members(rows), market, asOf);
    if eligible == [] {
      return Missing;
    }
    assert eligible[0] in Members(eligible);
    var sorted := Sort(eligible, KeyLe);
    KeyLePreorder();
    SortSorts(eligible, KeyLe);
    SameMembers(sorted, eligible);
    var defect := Defective(sorted);
    if defect {
      return Disagreement;
    }
    var last := sorted[|sorted| - 1];
    LastIsLatest(sorted);
    if !last.verified {
      return Bound(last, false);
    }
    if archive == None || last.receipt == None || !archive.value(last) {
      return Unverifiable(last);
    }
    return Bound(last, true);
  }

  lemma {:induction false} SameMembers(a: seq<Observation>, b: seq<Observation>)
    requires multiset(a) == multiset(b)
    ensures Members(a) == Members(b)
  {
    forall o ensures o in a <==> o in b {
      assert o in a <==> o in multiset(a);
      assert o in b <==> o in multiset(b);
    }
  }

  lemma {:induction false} LastIsLatest(sorted: seq<Observation>)
    requires SortedBy(sorted, KeyLe) && sorted != []
    ensures IsLatest(sorted[|sorted| - 1], Members(sorted))
  {
    var last := sorted[|sorted| - 1];
    KeyLeTotal(last, last, last);
    forall p | p in Members(sorted) ensures KeyLe(p, last) {
      var i :| 0 <= i < |sorted| && sorted[i] == p;
    }
  }

  function Filter(rows: seq<Observation>, market: string, asOf: int): (r: seq<Observation>)
    ensures forall o :: o in r <==> o in rows && o.market == market && o.observedAt <= asOf
  {
    if rows == [] then []
    else
      assert rows == [rows[0]] + rows[1..];
      (if rows[0].market == market && rows[0].observedAt <= asOf then [rows[0]] else []) + Filter(rows[1..], market, asOf)
  }

  function Fact(o: Observation): (string, string, string) {
    (o.marketEvent, o.event, o.series)
  }

  function Version(o: Observation): (string, string) {
    (o.marketVersion, o.eventVersion)
  }

  lemma {:induction false} OneFact(rows: seq<Observation>, facts: set<(string, string, string)>)
    requires rows != [] && facts == set o | o in rows :: Fact(o)
    ensures |facts| == 1 <==> forall a, b :: a in Members(rows) && b in Members(rows) ==> SameFacts(a, b)
  {
    var single := Fact(rows[0]);
    assert rows[0] in rows && single in facts;
    if |facts| == 1 {
      Singleton(facts, single);
      forall a, b | a in Members(rows) && b in Members(rows) ensures SameFacts(a, b) {
        assert Fact(a) in facts && Fact(b) in facts;
      }
    }
    if forall a, b :: a in Members(rows) && b in Members(rows) ==> SameFacts(a, b) {
      forall f | f in facts ensures f == single {
        var o :| o in rows && f == Fact(o);
        assert o in Members(rows) && rows[0] in Members(rows);
      }
      assert facts == {single};
    }
  }

  lemma {:induction false} Singleton<T>(s: set<T>, x: T)
    requires |s| == 1 && x in s
    ensures s == {x}
  {
    assert |s - {x}| == 0;
  }

  ghost predicate OneVersionAt(rows: seq<Observation>, t: int) {
    forall a, b :: a in Members(rows) && b in Members(rows) && a.observedAt == t && b.observedAt == t ==> SameVersions(a, b)
  }

  lemma {:induction false} OneVersion(rows: seq<Observation>, t: int, versions: set<(string, string)>)
    requires exists o :: o in rows && o.observedAt == t
    requires versions == set o | o in rows && o.observedAt == t :: Version(o)
    ensures |versions| == 1 <==> OneVersionAt(rows, t)
  {
    var o :| o in rows && o.observedAt == t;
    var single := Version(o);
    assert single in versions;
    if |versions| == 1 {
      Singleton(versions, single);
      forall a, b | a in Members(rows) && b in Members(rows) && a.observedAt == t && b.observedAt == t ensures SameVersions(a, b) {
        assert Version(a) in versions && Version(b) in versions;
      }
    }
    if OneVersionAt(rows, t) {
      assert versions == {single};
    }
  }

  /** The identity and version checks, with the sets the source builds in its loop. */
  method Defective(rows: seq<Observation>) returns (defect: bool)
    requires rows != []
    ensures defect <==> Disagrees(Members(rows))
  {
    var facts: set<(string, string, string)> := {};
    var versions: map<int, set<(string, string)>> := map[];
    var mismatched := false;
    var i := 0;
    while i < |rows|
      invariant 0 <= i <= |rows|
      invariant facts == set o | o in rows[..i] :: Fact(o)
      invariant versions.Keys == set o | o in rows[..i] :: o.observedAt
      invariant forall t :: t in versions ==> versions[t] == set o | o in rows[..i] && o.observedAt == t :: Version(o)
      invariant mismatched <==> exists o :: o in rows[..i] && o.marketEvent != o.event
    {
      var o := rows[i];
      assert rows[..i + 1] == rows[..i] + [o];
      facts := facts + {Fact(o)};
      mismatched := mismatched || o.marketEvent != o.event;
      var prior := if o.observedAt in versions then versions[o.observedAt] else {};
      versions := versions[o.observedAt := prior + {Version(o)}];
      i := i + 1;
    }
    assert rows[..i] == rows;
    var ambiguous := exists t | t in versions :: |versions[t]| != 1;
    defect := mismatched || |facts| != 1 || ambiguous;
    OneFact(rows, facts);
    forall t | t in versions ensures |versions[t]| == 1 <==> OneVersionAt(rows, t) {
      OneVersion(rows, t, versions[t]);
    }
    NoAmbiguity(rows, versions.Keys);
  }

  lemma {:induction false} NoAmbiguity(rows: seq<Observation>, times: set<int>)
    requires times == set o | o in rows :: o.observedAt
    ensures (forall t :: t in times ==> OneVersionAt(rows, t)) <==>
            (forall a, b :: a in Members(rows) && b in Members(rows) && a.observedAt == b.observedAt ==> SameVersions(a, b))
  {
    if forall t :: t in times ==> OneVersionAt(rows, t) {
      forall a, b | a in Members(rows) && b in Members(rows) && a.observedAt == b.observedAt ensures SameVersions(a, b) {
        assert OneVersionAt(rows, a.observedAt);
      }
    }
  }
}
