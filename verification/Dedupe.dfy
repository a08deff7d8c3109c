/** Duplicate detection: four first-writer-wins tables stand in for a scan of everything added so far. */
module Dedupe {
  datatype Option<+T> = None | Some(value: T)

  datatype Event = Event(
    id: string, source: string, providerId: Option<string>, url: Option<string>, rawHash: string, reference: string)

  /** An event offered with its normalized text; the text's digest identifies the text. */
  datatype Entry = Entry(event: Event, text: string)

  datatype Key = ProviderKey(source: string, id: string) | UrlKey(url: string) | RawKey(hash: string) | TextKey(text: string)

  datatype Reason = ProviderEventId | CanonicalUrl | RawHash | NormalizedHash | NearDuplicate

  datatype Decision = Unique | Duplicate(of: string, reason: Reason)

  predicate Truthy(x: Option<string>) {
    x.Some? && x.value != ""
  }

  /** The keys of an entry, strongest first. A missing or empty provider id or URL is no key. */
  function Keys(e: Entry): seq<Key> {
    (if Truthy(e.event.providerId) then [ProviderKey(e.event.source, e.event.providerId.value)] else [])
    + (if Truthy(e.event.url) then [UrlKey(e.event.url.value)] else [])
    + [RawKey(e.event.rawHash), TextKey(e.text)]
  }

  function ReasonOf(k: Key): Reason {
    match k
    case ProviderKey(_, _) => ProviderEventId
    case UrlKey(_) => CanonicalUrl
    case RawKey(_) => RawHash
    case TextKey(_) => NormalizedHash
  }

  // ----- the scan the tables stand in for -----

  /** The id of the earliest entry with this key. */
  function FirstId(history: seq<Entry>, k: Key): Option<string> {
    if history == [] then None
    else if k in Keys(history[0]) then Some(history[0].event.id)
    else FirstId(history[1..], k)
  }

  /** The first of some keys that an earlier event holds under a non-empty id. */
  function FirstMatch(history: seq<Entry>, keys: seq<Key>): Decision {
    if keys == [] then Unique
    else if Truthy(FirstId(history, keys[0])) then Duplicate(FirstId(history, keys[0]).value, ReasonOf(keys[0]))
    else FirstMatch(history, keys[1..])
  }

  /** Keep an insertion-ordered dictionary by id: a known id keeps its place and takes the new event. */
  function Upserted(events: seq<Event>, e: Event): seq<Event> {
    if events == [] then [e]
    else if events[0].id == e.id then [e] + events[1..]
    else [events[0]] + Upserted(events[1..], e)
  }

  function EventsOf(history: seq<Entry>): seq<Event> {
    if history == [] then [] else Upserted(EventsOf(history[..|history| - 1]), history[|history| - 1].event)
  }

  /** The near-duplicate fallback: the first event the similarity rule relates to this one. */
  function FirstSimilar(similar: (Entry, Event) -> bool, events: seq<Event>, e: Entry): Decision {
    if events == [] then Unique
    else if similar(e, events[0]) then Duplicate(events[0].id, NearDuplicate)
    else FirstSimilar(similar, events[1..], e)
  }

  function Decide(similar: (Entry, Event) -> bool, history: seq<Entry>, e: Entry): Decision {
    var exact := FirstMatch(history, Keys(e));
    if exact.Duplicate? then exact else FirstSimilar(similar, EventsOf(history), e)
  }

  lemma {:induction false} FirstIdAppend(history: seq<Entry>, e: Entry, k: Key)
    ensures FirstId(history + [e], k) ==
            if FirstId(history, k).Some? then FirstId(history, k) else if k in Keys(e) then Some(e.event.id) else None
  {
    hide Keys;
    if history == [] {
      assert [] + [e] == [e] && [e][1..] == [];
    } else {
      FirstIdAppend(history[1..], e, k);
      assert (history + [e])[1..] == history[1..] + [e];
    }
  }

  // ----- the tables -----

  function Get<K, V>(table: map<K, V>, k: K): Option<V> {
    if k in table then Some(table[k]) else None
  }

  function SetDefault<K, V>(table: map<K, V>, k: K, v: V): map<K, V> {
    if k in table then table else table[k := v]
  }

  datatype Tables = Tables(
    providers: map<(string, string), string>, urls: map<string, string>, raws: map<string, string>, texts: map<string, string>)

  function Lookup(t: Tables, k: Key): Option<string> {
    match k
    case ProviderKey(s, p) => Get(t.providers, (s, p))
    case UrlKey(u) => Get(t.urls, u)
    case RawKey(h) => Get(t.raws, h)
    case TextKey(d) => Get(t.texts, d)
  }

  ghost predicate Indexes(t: Tables, history: seq<Entry>) {
    forall k :: Lookup(t, k) == FirstId(history, k)
  }

  function Recorded(t: Tables, e: Entry): Tables {
    Tables(
      if Truthy(e.event.providerId) then SetDefault(t.providers, (e.event.source, e.event.providerId.value), e.event.id)
      else t.providers,
      if Truthy(e.event.url) then SetDefault(t.urls, e.event.url.value, e.event.id) else t.urls,
      SetDefault(t.raws, e.event.rawHash, e.event.id),
      SetDefault(t.texts, e.text, e.event.id))
  }

  lemma {:induction false} RecordedLookup(t: Tables, e: Entry, k: Key)
    ensures Lookup(Recorded(t, e), k) ==
            if Lookup(t, k).Some? then Lookup(t, k) else if k in Keys(e) then Some(e.event.id) else None
  {
  }

  lemma {:induction false} RecordedIndexes(t: Tables, history: seq<Entry>, e: Entry)
    requires Indexes(t, history)
    ensures Indexes(Recorded(t, e), history + [e])
  {
    hide Lookup, FirstId, Recorded, Keys;
    forall k ensures Lookup(Recorded(t, e), k) == FirstId(history + [e], k) {
      RecordedLookup(t, e, k);
      FirstIdAppend(history, e, k);
    }
  }

  class DedupeIndex {
    var events: seq<Event>
    var providers: map<(string, string), string>
    var urls: map<string, string>
    var rawHashes: map<string, string>
    var normalizedHashes: map<string, string>
    const similar: (Entry, Event) -> bool
    ghost var history: seq<Entry>

    ghost predicate Valid()
      reads this
    {
      Indexes(Tables(providers, urls, rawHashes, normalizedHashes), history) && events == EventsOf(history)
    }

    constructor (similar: (Entry, Event) -> bool)
      ensures Valid() && history == [] && this.similar == similar
    {
      this.similar := similar;
      events, providers, urls, rawHashes, normalizedHashes := [], map[], map[], map[], map[];
      history := [];
    }

    /** Look the keys up in order, then fall back to similarity. */
    method Classify(e: Entry) returns (d: Decision)
      requires Valid()
      ensures d == Decide(similar, history, e)
    {
      hide FirstId, EventsOf;
      ghost var tables := Tables(providers, urls, rawHashes, normalizedHashes);
      var checks: seq<(Option<string>, Reason)> := [];
      ghost var keys := Keys(e);
      if Truthy(e.event.providerId) {
        ghost var k := ProviderKey(e.event.source, e.event.providerId.value);
        assert Lookup(tables, k) == FirstId(history, k);
        checks := checks + [(Get(providers, (e.event.source, e.event.providerId.value)), ProviderEventId)];
      }
      if Truthy(e.event.url) {
        ghost var k := UrlKey(e.event.url.value);
        assert Lookup(tables, k) == FirstId(history, k);
        checks := checks + [(Get(urls, e.event.url.value), CanonicalUrl)];
      }
      assert Lookup(tables, RawKey(e.event.rawHash)) == FirstId(history, RawKey(e.event.rawHash));
      assert Lookup(tables, TextKey(e.text)) == FirstId(history, TextKey(e.text));
      checks := checks + [(Get(rawHashes, e.event.rawHash), RawHash), (Get(normalizedHashes, e.text), NormalizedHash)];
      d := FirstCheck(history, keys, checks);
      if d == Unique {
        d := ScanSimilar(similar, events, e);
      }
    }

    method Add(e: Entry) returns (d: Decision)
      requires Valid()
      modifies this`events, this`providers, this`urls, this`rawHashes, this`normalizedHashes, this`history
      ensures Valid() && history == old(history) + [e]
      ensures d == Decide(similar, old(history), e)
    {
      hide Keys, FirstId, Lookup, Decide;
      d := Classify(e);
      RecordedIndexes(Tables(providers, urls, rawHashes, normalizedHashes), history, e);
      assert (history + [e])[..|history|] == history;
      events := Upserted(events, e.event);
      if Truthy(e.event.providerId) {
        providers := SetDefault(providers, (e.event.source, e.event.providerId.value), e.event.id);
      }
      if Truthy(e.event.url) {
        urls := SetDefault(urls, e.event.url.value, e.event.id);
      }
      rawHashes := SetDefault(rawHashes, e.event.rawHash, e.event.id);
      normalizedHashes := SetDefault(normalizedHashes, e.text, e.event.id);
      history := history + [e];
    }
  }

  /** The loop over the checks: the first one with a non-empty id decides. */
  method FirstCheck(ghost history: seq<Entry>, ghost keys: seq<Key>, checks: seq<(Option<string>, Reason)>) returns (d: Decision)
    requires |checks| == |keys|
    requires forall i :: 0 <= i < |keys| ==> checks[i].0 == FirstId(history, keys[i]) && checks[i].1 == ReasonOf(keys[i])
    ensures d == FirstMatch(history, keys)
  {
    hide FirstId, ReasonOf;
    var i := 0;
    while i < |checks|
      invariant 0 <= i <= |checks|
      invariant FirstMatch(history, keys) == FirstMatch(history, keys[i..])
    {
      assert keys[i..][1..] == keys[i + 1..];
      if Truthy(checks[i].0) {
        return Duplicate(checks[i].0.value, checks[i].1);
      }
      i := i + 1;
    }
    return Unique;
  }

  method ScanSimilar(similar: (Entry, Event) -> bool, events: seq<Event>, e: Entry) returns (d: Decision)
    ensures d == FirstSimilar(similar, events, e)
  {
    var i := 0;
    while i < |events|
      invariant 0 <= i <= |events|
      invariant FirstSimilar(similar, events, e) == FirstSimilar(similar, events[i..], e)
    {
      if similar(e, events[i]) {
        return Duplicate(events[i].id, NearDuplicate);
      }
      i := i + 1;
    }
    return Unique;
  }

  /** Over a whole run of additions, each decision is the scan of what was added before. */
  method Ingest(similar: (Entry, Event) -> bool, entries: seq<Entry>) returns (decisions: seq<Decision>)
    ensures |decisions| == |entries|
    ensures forall i :: 0 <= i < |entries| ==> decisions[i] == Decide(similar, entries[..i], entries[i])
  {
    hide Decide;
    var index := new DedupeIndex(similar);
    decisions := [];
    while |decisions| < |entries|
      invariant index.Valid() && index.similar == similar && |decisions| <= |entries|
      invariant fresh(index) && index.history == entries[..|decisions|]
      invariant forall i :: 0 <= i < |decisions| ==> decisions[i] == Decide(similar, entries[..i], entries[i])
      decreases |entries| - |decisions|
    {
      var d := index.Add(entries[|decisions|]);
      decisions := decisions + [d];
    }
  }

  // ----- what the decisions mean -----

  /** An answer is the id of the earliest holder of the key. */
  lemma {:induction false} FirstIdMeaning(history: seq<Entry>, k: Key, id: string)
    ensures FirstId(history, k) == Some(id) <==>
            exists i :: 0 <= i < |history| && k in Keys(history[i]) && history[i].event.id == id
                        && forall j :: 0 <= j < i ==> k !in Keys(history[j])
    ensures FirstId(history, k) == None <==> forall i :: 0 <= i < |history| ==> k !in Keys(history[i])
  {
    hide Keys;
    if history != [] {
      var rest := history[1..];
      if k in Keys(history[0]) {
        assert FirstId(history, k) == Some(history[0].event.id);
      } else {
        FirstIdMeaning(rest, k, id);
        if FirstId(rest, k) == Some(id) {
          var i :| 0 <= i < |rest| && k in Keys(rest[i]) && rest[i].event.id == id && forall j :: 0 <= j < i ==> k !in Keys(rest[j]);
          assert history[i + 1] == rest[i];
          assert forall j :: 0 < j < i + 1 ==> history[j] == rest[j - 1];
        }
        if i :| 0 <= i < |history| && k in Keys(history[i]) && history[i].event.id == id
                && forall j :: 0 <= j < i ==> k !in Keys(history[j]) {
          assert rest[i - 1] == history[i];
          assert forall j :: 0 <= j < i - 1 ==> rest[j] == history[j + 1];
        }
        assert forall i :: 0 <= i < |rest| ==> rest[i] == history[i + 1];
        assert forall i :: 0 < i < |history| ==> history[i] == rest[i - 1];
      }
    }
  }

  lemma {:induction false} FirstMatchExactly(history: seq<Entry>, keys: seq<Key>)
    ensures FirstMatch(history, keys).Duplicate? <==> exists k :: k in keys && Truthy(FirstId(history, k))
  {
    hide Keys;
    if keys != [] {
      FirstMatchExactly(history, keys[1..]);
      assert keys[0] in keys;
      assert forall k :: k in keys <==> k == keys[0] || k in keys[1..];
    }
  }

  /** An earlier claim is never overwritten. */
  lemma {:induction false} ClaimsArePermanent(history: seq<Entry>, more: seq<Entry>, k: Key)
    requires FirstId(history, k).Some?
    ensures FirstId(history + more, k) == FirstId(history, k)
  {
    hide Keys;
    assert (history + more)[1..] == history[1..] + more;
    if k !in Keys(history[0]) {
      ClaimsArePermanent(history[1..], more, k);
    }
  }

  /** What the tables report as a duplicate they go on reporting, whatever is added in between. */
  lemma {:induction false} DuplicatesStayDuplicates(history: seq<Entry>, more: seq<Entry>, e: Entry)
    requires FirstMatch(history, Keys(e)).Duplicate?
    ensures FirstMatch(history + more, Keys(e)).Duplicate?
  {
    hide FirstId, Keys;
    FirstMatchExactly(history, Keys(e));
    FirstMatchExactly(history + more, Keys(e));
    var k :| k in Keys(e) && Truthy(FirstId(history, k));
    ClaimsArePermanent(history, more, k);
  }

  lemma {:induction false} HeldKeysAnswer(history: seq<Entry>, e: Entry, k: Key)
    requires e in history && k in Keys(e)
    ensures FirstId(history, k).Some?
  {
    hide Keys;
    if k !in Keys(history[0]) {
      assert e in history[1..];
      HeldKeysAnswer(history[1..], e, k);
    }
  }

  lemma {:induction false} FirstSimilarExactly(similar: (Entry, Event) -> bool, events: seq<Event>, e: Entry)
    ensures FirstSimilar(similar, events, e).Duplicate? <==> exists v :: v in events && similar(e, v)
  {
    if events != [] {
      FirstSimilarExactly(similar, events[1..], e);
      assert events[0] in events;
      assert forall v :: v in events <==> v == events[0] || v in events[1..];
    }
  }

  lemma {:induction false} UpsertedMembers(events: seq<Event>, e: Event, v: Event)
    requires forall i, j :: 0 <= i < j < |events| ==> events[i].id != events[j].id
    ensures v in Upserted(events, e) <==> v == e || (v in events && v.id != e.id)
    ensures forall i, j :: 0 <= i < j < |Upserted(events, e)| ==> Upserted(events, e)[i].id != Upserted(events, e)[j].id
  {
    if events != [] {
      var rest := events[1..];
      assert events[0] in events;
      assert forall x :: x in events <==> x == events[0] || x in rest;
      UpsertedMembers(rest, e, v);
      forall j | 0 <= j < |Upserted(rest, e)| ensures Upserted(rest, e)[j].id != events[0].id || events[0].id == e.id {
        UpsertedMembers(rest, e, Upserted(rest, e)[j]);
      }
    }
  }

  /** An id's event is the one it was last added with; those are the events similarity is asked about. */
  ghost predicate LastAdded(history: seq<Entry>, v: Event) {
    exists i :: 0 <= i < |history| && history[i].event == v && forall j :: i < j < |history| ==> history[j].event.id != v.id
  }

  lemma {:induction false} EventsOfMeaning(history: seq<Entry>, v: Event)
    ensures v in EventsOf(history) <==> LastAdded(history, v)
    ensures forall i, j :: 0 <= i < j < |EventsOf(history)| ==> EventsOf(history)[i].id != EventsOf(history)[j].id
    decreases |history|
  {
    if history != [] {
      var n := |history| - 1;
      var init, last := history[..n], history[n].event;
      EventsOfMeaning(init, v);
      UpsertedMembers(EventsOf(init), last, v);
      LastAddedSnoc(history, v);
    }
  }

  lemma {:induction false} LastAddedSnoc(history: seq<Entry>, v: Event)
    requires history != []
    ensures var n := |history| - 1;
            LastAdded(history, v) <==> v == history[n].event || (LastAdded(history[..n], v) && v.id != history[n].event.id)
  {
    var n := |history| - 1;
    var init := history[..n];
    if v == history[n].event {
      assert LastAdded(history, v);
    } else if LastAdded(history, v) {
      var i :| 0 <= i < |history| && history[i].event == v && forall j :: i < j < |history| ==> history[j].event.id != v.id;
      assert init[i].event == v;
    } else if LastAdded(init, v) && v.id != history[n].event.id {
      var i :| 0 <= i < |init| && init[i].event == v && forall j :: i < j < |init| ==> init[j].event.id != v.id;
      assert history[i].event == v;
      assert forall j :: i < j < |history| ==> (j < n ==> history[j] == init[j]);
    }
  }

  ghost predicate SimilarEarlier(similar: (Entry, Event) -> bool, history: seq<Entry>, e: Entry) {
    exists v :: LastAdded(history, v) && similar(e, v)
  }

  /** What is reported at all: a key with a named earliest holder, or a similar earlier event. */
  lemma {:induction false} ReportedExactly(similar: (Entry, Event) -> bool, history: seq<Entry>, e: Entry)
    ensures Decide(similar, history, e).Duplicate? <==>
            (exists k :: k in Keys(e) && Truthy(FirstId(history, k))) || SimilarEarlier(similar, history, e)
  {
    hide Keys, LastAdded;
    FirstMatchExactly(history, Keys(e));
    FirstSimilarExactly(similar, EventsOf(history), e);
    forall v ensures v in EventsOf(history) <==> LastAdded(history, v) {
      EventsOfMeaning(history, v);
    }
  }

  /**
   Adding an entry again: it is reported exactly when some key's earliest holder has a non-empty id or some
   earlier event is similar. One whose keys were all first claimed under an empty id depends on similarity.
  */
  lemma {:induction false} ReAddedExactly(similar: (Entry, Event) -> bool, history: seq<Entry>, e: Entry)
    requires e in history
    ensures Decide(similar, history, e).Duplicate? <==>
            (exists k :: k in Keys(e) && FirstId(history, k) != Some("")) || SimilarEarlier(similar, history, e)
  {
    hide FirstId, Keys, SimilarEarlier, Decide;
    forall k | k in Keys(e) ensures FirstId(history, k).Some? {
      HeldKeysAnswer(history, e, k);
    }
    ReportedExactly(similar, history, e);
  }

  /** With non-empty ids throughout, an entry added again is always reported, and by a table. */
  lemma {:induction false} ReAddedIsDuplicate(similar: (Entry, Event) -> bool, history: seq<Entry>, e: Entry)
    requires e in history && forall x :: x in history ==> x.event.id != ""
    ensures Decide(similar, history, e).Duplicate? && Decide(similar, history, e) == FirstMatch(history, Keys(e))
  {
    var k := RawKey(e.event.rawHash);
    assert k in Keys(e);
    hide FirstId, Keys;
    HeldKeysAnswer(history, e, k);
    FirstIdMeaning(history, k, "");
    FirstMatchExactly(history, Keys(e));
  }

  /** One event with an empty id, added twice: reported only if it counts as similar to itself. */
  lemma {:induction false} EmptyIdSlipsThrough(similar: (Entry, Event) -> bool, e: Entry)
    requires e.event.id == ""
    ensures Decide(similar, [e], e) == Unique <==> !similar(e, e.event)
  {
    hide Keys, Decide;
    ReAddedExactly(similar, [e], e);
    forall k | k in Keys(e) ensures FirstId([e], k) == Some("") {
    }
    LastAddedSnoc([e], e.event);
    forall v ensures LastAdded([e], v) <==> v == e.event {
      LastAddedSnoc([e], v);
    }
  }
}
