/** Which earlier event a duplicate is reported of, and for which reason, in the fields of the events. */
module DedupeReasons {
  import opened Dedupe

  /** Two entries agree in the field a reason is about; an absent or empty provider id or URL agrees with nothing. */
  predicate Shares(x: Entry, e: Entry, r: Reason) {
    match r
    case ProviderEventId =>
      e.event.providerId.Some? && e.event.providerId.value != "" && x.event.providerId == e.event.providerId
      && x.event.source == e.event.source
    case CanonicalUrl => e.event.url.Some? && e.event.url.value != "" && x.event.url == e.event.url
    case RawHash => x.event.rawHash == e.event.rawHash
    case NormalizedHash => x.text == e.text
    case NearDuplicate => false
  }

  /** The earliest entry that shares the field, provided its id is not empty. */
  ghost predicate Names(history: seq<Entry>, e: Entry, r: Reason, id: string) {
    id != "" && exists i :: 0 <= i < |history| && Shares(history[i], e, r) && history[i].event.id == id
                            && forall j :: 0 <= j < i ==> !Shares(history[j], e, r)
  }

  /** Provider id, URL, raw hash, text: the reasons from the strongest to the weakest. */
  predicate Stronger(q: Reason, r: Reason) {
    match q
    case ProviderEventId => r != ProviderEventId
    case CanonicalUrl => r == RawHash || r == NormalizedHash || r == NearDuplicate
    case RawHash => r == NormalizedHash || r == NearDuplicate
    case NormalizedHash => r == NearDuplicate
    case NearDuplicate => false
  }

  function KeyFor(e: Entry, r: Reason): seq<Key> {
    match r
    case ProviderEventId => if Truthy(e.event.providerId) then [ProviderKey(e.event.source, e.event.providerId.value)] else []
    case CanonicalUrl => if Truthy(e.event.url) then [UrlKey(e.event.url.value)] else []
    case RawHash => [RawKey(e.event.rawHash)]
    case NormalizedHash => [TextKey(e.text)]
    case NearDuplicate => []
  }

  lemma {:induction false} KeysAre(e: Entry)
    ensures Keys(e) == KeyFor(e, ProviderEventId) + (KeyFor(e, CanonicalUrl) + (KeyFor(e, RawHash) + KeyFor(e, NormalizedHash)))
  {
  }

  lemma {:induction false} SharedKey(x: Entry, e: Entry, r: Reason)
    ensures |KeyFor(e, r)| <= 1
    ensures KeyFor(e, r) == [] ==> !Shares(x, e, r)
    ensures KeyFor(e, r) != [] ==> ReasonOf(KeyFor(e, r)[0]) == r && (KeyFor(e, r)[0] in Keys(x) <==> Shares(x, e, r))
  {
  }

  lemma {:induction false} FirstMatchConcat(history: seq<Entry>, a: seq<Key>, b: seq<Key>)
    ensures FirstMatch(history, a + b) == if FirstMatch(history, a).Duplicate? then FirstMatch(history, a) else FirstMatch(history, b)
  {
    hide FirstId;
    if a == [] {
      assert a + b == b;
    } else {
      assert (a + b)[1..] == a[1..] + b;
      FirstMatchConcat(history, a[1..], b);
    }
  }

  /** What one field contributes. */
  lemma {:induction false} FieldMatch(history: seq<Entry>, e: Entry, r: Reason)
    ensures FirstMatch(history, KeyFor(e, r)).Duplicate? ==> FirstMatch(history, KeyFor(e, r)).reason == r
    ensures forall id :: FirstMatch(history, KeyFor(e, r)) == Duplicate(id, r) <==> Names(history, e, r, id)
  {
    forall x ensures |KeyFor(e, r)| <= 1 && (KeyFor(e, r) == [] ==> !Shares(x, e, r)) {
      SharedKey(x, e, r);
    }
    SharedKey(e, e, r);
    hide KeyFor, Keys, Shares, ReasonOf, FirstId;
    if KeyFor(e, r) != [] {
      var k := KeyFor(e, r)[0];
      assert KeyFor(e, r)[1..] == [];
      forall x ensures k in Keys(x) <==> Shares(x, e, r) {
        SharedKey(x, e, r);
      }
      forall id ensures FirstId(history, k) == Some(id) && id != "" <==> Names(history, e, r, id) {
        FirstIdMeaning(history, k, id);
      }
    }
  }

  /** A table reports a reason and an id exactly when that field names the id and no stronger field names any. */
  lemma {:induction false} ReasonExactly(history: seq<Entry>, e: Entry, r: Reason, id: string)
    ensures FirstMatch(history, Keys(e)) == Duplicate(id, r) <==>
            Names(history, e, r, id) && forall q, other :: Stronger(q, r) ==> !Names(history, e, q, other)
  {
    hide FirstMatch, KeyFor, Keys, Names;
    KeysAre(e);
    var p, u, h, t := KeyFor(e, ProviderEventId), KeyFor(e, CanonicalUrl), KeyFor(e, RawHash), KeyFor(e, NormalizedHash);
    FirstMatchConcat(history, p, u + (h + t));
    FirstMatchConcat(history, u, h + t);
    FirstMatchConcat(history, h, t);
    forall q
      ensures FirstMatch(history, KeyFor(e, q)).Duplicate? ==> FirstMatch(history, KeyFor(e, q)).reason == q
      ensures forall other :: FirstMatch(history, KeyFor(e, q)) == Duplicate(other, q) <==> Names(history, e, q, other) {
      FieldMatch(history, e, q);
    }
    NearNamesNothing(history, e);
    forall q ensures FirstMatch(history, KeyFor(e, q)).Duplicate? ==> Names(history, e, q, FirstMatch(history, KeyFor(e, q)).of) {
      var d := FirstMatch(history, KeyFor(e, q));
      assert d.Duplicate? ==> d == Duplicate(d.of, q);
    }
  }

  lemma {:induction false} NearNamesNothing(history: seq<Entry>, e: Entry)
    ensures forall id :: !Names(history, e, NearDuplicate, id)
  {
  }

  // ----- the fallback -----

  /** The entry's id was first added at position `n`. */
  ghost predicate FirstAdded(history: seq<Entry>, id: string, n: nat) {
    n < |history| && history[n].event.id == id && forall m :: 0 <= m < n ==> history[m].event.id != id
  }

  function Ids(events: seq<Event>): (r: seq<string>)
    ensures |r| == |events| && forall i :: 0 <= i < |events| ==> r[i] == events[i].id
  {
    seq(|events|, i requires 0 <= i < |events| => events[i].id)
  }

  lemma {:induction false} IdsCons(x: Event, rest: seq<Event>)
    ensures Ids([x] + rest) == [x.id] + Ids(rest)
  {
  }

  lemma {:induction false} UpsertedIds(events: seq<Event>, e: Event)
    ensures Ids(Upserted(events, e)) == if e.id in Ids(events) then Ids(events) else Ids(events) + [e.id]
  {
    hide Ids;
    if events == [] {
      IdsCons(e, []);
      assert [e] + [] == [e] && [e.id] + Ids([]) == Ids([]) + [e.id];
    } else {
      var head, rest := events[0], events[1..];
      assert events == [head] + rest;
      IdsCons(head, rest);
      if head.id == e.id {
        IdsCons(e, rest);
      } else {
        UpsertedIds(rest, e);
        IdsCons(head, Upserted(rest, e));
        assert ([head.id] + Ids(rest)) + [e.id] == [head.id] + (Ids(rest) + [e.id]);
      }
    }
  }

  ghost predicate InAddedOrder(history: seq<Entry>, ids: seq<string>) {
    && (forall id :: id in ids <==> exists n: nat :: FirstAdded(history, id, n))
    && (forall i, j, m: nat, n: nat ::
          0 <= i < j < |ids| && FirstAdded(history, ids[i], m) && FirstAdded(history, ids[j], n) ==> m < n)
  }

  lemma {:induction false} FirstAddedSnoc(history: seq<Entry>, id: string, n: nat)
    requires history != []
    ensures var init, last := history[..|history| - 1], history[|history| - 1].event.id;
            FirstAdded(history, id, n) <==>
            FirstAdded(init, id, n)
            || (n == |history| - 1 && id == last && forall m: nat :: !FirstAdded(init, id, m))
  {
    var init := history[..|history| - 1];
    if forall m: nat :: !FirstAdded(init, id, m) {
      forall m | 0 <= m < |init| ensures init[m].event.id != id {
        NeverAdded(init, id, m);
      }
    }
  }

  lemma {:induction false} NeverAdded(history: seq<Entry>, id: string, m: nat)
    requires m < |history| && forall n: nat :: !FirstAdded(history, id, n)
    ensures history[m].event.id != id
    decreases m
  {
    forall l | 0 <= l < m ensures history[l].event.id != id {
      NeverAdded(history, id, l);
    }
    assert !FirstAdded(history, id, m);
  }

  /** The events similarity is asked about come in the order in which their ids were first added. */
  lemma {:induction false} EventsInAddedOrder(history: seq<Entry>)
    ensures InAddedOrder(history, Ids(EventsOf(history)))
    decreases |history|
  {
    hide FirstAdded, Ids;
    if history == [] {
      NothingAdded();
    } else {
      var init, last := history[..|history| - 1], history[|history| - 1].event;
      EventsInAddedOrder(init);
      UpsertedIds(EventsOf(init), last);
      AddedOrderSnoc(history, Ids(EventsOf(init)));
    }
  }

  lemma {:induction false} NothingAdded()
    ensures InAddedOrder([], Ids(EventsOf([])))
  {
  }

  lemma {:induction false} AddedOrderSnoc(history: seq<Entry>, ids: seq<string>)
    requires history != [] && InAddedOrder(history[..|history| - 1], ids)
    ensures var last := history[|history| - 1].event.id;
            InAddedOrder(history, if last in ids then ids else ids + [last])
  {
    hide FirstAdded;
    var init, last := history[..|history| - 1], history[|history| - 1].event.id;
    forall id, n: nat
      ensures FirstAdded(history, id, n) <==>
              FirstAdded(init, id, n) || (n == |history| - 1 && id == last && forall m: nat :: !FirstAdded(init, id, m)) {
      FirstAddedSnoc(history, id, n);
    }
    forall id, n: nat | FirstAdded(init, id, n) ensures n < |history| - 1 {
      AddedWithin(init, id, n);
    }
    if last !in ids {
      assert FirstAdded(history, last, |history| - 1);
    }
  }

  lemma {:induction false} AddedWithin(history: seq<Entry>, id: string, n: nat)
    ensures FirstAdded(history, id, n) ==> n < |history|
  {
  }

  lemma {:induction false} FirstSimilarIs(similar: (Entry, Event) -> bool, events: seq<Event>, e: Entry, id: string)
    ensures FirstSimilar(similar, events, e) == Duplicate(id, NearDuplicate) <==>
            exists i :: 0 <= i < |events| && similar(e, events[i]) && events[i].id == id
                        && forall j :: 0 <= j < i ==> !similar(e, events[j])
    ensures FirstSimilar(similar, events, e).Duplicate? ==> FirstSimilar(similar, events, e).reason == NearDuplicate
  {
    if events != [] {
      var rest := events[1..];
      FirstSimilarIs(similar, rest, e, id);
      if !similar(e, events[0]) {
        if i :| 0 <= i < |rest| && similar(e, rest[i]) && rest[i].id == id && forall j :: 0 <= j < i ==> !similar(e, rest[j]) {
          assert events[i + 1] == rest[i] && forall j :: 0 < j < i + 1 ==> events[j] == rest[j - 1];
        }
        if i :| 0 <= i < |events| && similar(e, events[i]) && events[i].id == id && forall j :: 0 <= j < i ==> !similar(e, events[j]) {
          assert rest[i - 1] == events[i] && forall j :: 0 <= j < i - 1 ==> rest[j] == events[j + 1];
        }
      }
    }
  }

  /** The whole decision: the strongest naming field, else the first similar event in the order of first addition. */
  lemma {:induction false} DecisionExactly(similar: (Entry, Event) -> bool, history: seq<Entry>, e: Entry, id: string, r: Reason)
    ensures InAddedOrder(history, Ids(EventsOf(history)))
    ensures Decide(similar, history, e) == Duplicate(id, r) <==>
            if r == NearDuplicate then
              && (forall q, other :: !Names(history, e, q, other))
              && var events := EventsOf(history);
                 exists i :: 0 <= i < |events| && similar(e, events[i]) && events[i].id == id
                             && forall j :: 0 <= j < i ==> !similar(e, events[j])
            else Names(history, e, r, id) && forall q, other :: Stronger(q, r) ==> !Names(history, e, q, other)
  {
    hide FirstMatch, FirstSimilar, Keys, Names, InAddedOrder, EventsOf;
    EventsInAddedOrder(history);
    FirstSimilarIs(similar, EventsOf(history), e, id);
    ReasonExactly(history, e, r, id);
    var d := FirstMatch(history, Keys(e));
    if d.Duplicate? {
      ReasonExactly(history, e, d.reason, d.of);
    } else {
      NothingNamed(history, e);
    }
    NearNamesNothing(history, e);
  }

  lemma {:induction false} NothingNamed(history: seq<Entry>, e: Entry)
    requires !FirstMatch(history, Keys(e)).Duplicate?
    ensures forall q, other :: !Names(history, e, q, other)
  {
    hide FirstMatch, KeyFor, Keys, Names;
    KeysAre(e);
    var p, u, h, t := KeyFor(e, ProviderEventId), KeyFor(e, CanonicalUrl), KeyFor(e, RawHash), KeyFor(e, NormalizedHash);
    FirstMatchConcat(history, p, u + (h + t));
    FirstMatchConcat(history, u, h + t);
    FirstMatchConcat(history, h, t);
    NearNamesNothing(history, e);
    forall q, other ensures !Names(history, e, q, other) {
      FieldMatch(history, e, q);
    }
  }
}
