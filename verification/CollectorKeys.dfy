/**
 Object names of the city collector: claim and evidence paths, the `CityStore` name check,
 and the fact the whole isolation argument rests on: no name passes two checks.
*/
module CollectorKeys {
  import opened Text

  /** One city and one UTC date. Dates are days of October 2026, the frozen allowlist's month. */
  datatype CityDay = CityDay(city: string, day: nat)

  const CITIES: set<string> := {"boston", "miami", "denver", "los_angeles", "seattle"}

  predicate Allowed(day: nat) {
    3 <= day <= 14
  }

  /** `claim_path` raises INVALID_CLAIM_IDENTITY for any other pair. */
  predicate Approved(p: CityDay) {
    p.city in CITIES && Allowed(p.day)
  }

  function Stamp(day: nat): string
    requires Allowed(day)
  {
    "202610" + [Digit(day / 10), Digit(day % 10)]
  }

  function ClaimPath(p: CityDay): string
    requires Approved(p)
  {
    "claims/" + (p.city + "/" + (Stamp(p.day) + ".json"))
  }

  function Directory(p: CityDay): string
    requires Approved(p)
  {
    "city_days" + "/" + (p.city + "/" + (Stamp(p.day) + "/"))
  }

  /** Python's `name.split("/")`. */
  function Split(name: string): (parts: seq<string>)
    ensures |parts| >= 1
  {
    if name == "" then [""]
    else
      var rest := Split(name[1..]);
      if name[0] == '/' then [""] + rest else [[name[0]] + rest[0]] + rest[1..]
  }

  /** `CityStore._check` without its exception. */
  predicate Accepts(p: CityDay, name: string)
    requires Approved(p)
  {
    || name == ClaimPath(p)
    || (Directory(p) <= name && "" !in Split(name) && ".." !in Split(name))
  }

  predicate NoSlash(s: string) {
    forall i :: 0 <= i < |s| ==> s[i] != '/'
  }

  lemma {:induction false} CitiesHaveNoSlash(city: string)
    requires city in CITIES
    ensures NoSlash(city) && |city| > 2
  {
  }

  lemma {:induction false} StampShape(day: nat)
    requires Allowed(day)
    ensures |Stamp(day)| == 8 && NoSlash(Stamp(day))
    ensures forall e: nat :: Allowed(e) && Stamp(e) == Stamp(day) ==> e == day
  {
    forall e: nat | Allowed(e) && Stamp(e) == Stamp(day) ensures e == day {
      assert Stamp(e)[6] == Digit(e / 10) && Stamp(e)[7] == Digit(e % 10);
      assert Stamp(day)[6] == Digit(day / 10) && Stamp(day)[7] == Digit(day % 10);
    }
  }

  /** Text up to the first slash is determined by the whole text. */
  lemma {:induction false} HeadUnique(a: string, x: string, b: string, y: string)
    requires NoSlash(a) && NoSlash(b)
    requires a + "/" + x <= b + "/" + y || b + "/" + y <= a + "/" + x
    ensures a == b
  {
    var s, t := a + "/" + x, b + "/" + y;
    assert s[|a|] == '/' && t[|b|] == '/';
    var m := if |a| < |b| then |a| else |b|;
    assert s[m] == t[m];
    assert |a| == |b|;
    forall i | 0 <= i < |a| ensures a[i] == b[i] {
      assert s[i] == a[i] && t[i] == b[i];
    }
  }

  lemma {:induction false} TailUnique(a: string, x: string, y: string)
    requires a + "/" + x <= a + "/" + y || a + "/" + y <= a + "/" + x
    ensures x <= y || y <= x
  {
    var s, t := a + "/" + x, a + "/" + y;
    assert x == s[|a| + 1..] && y == t[|a| + 1..];
  }

  lemma {:induction false} TwoSegments(c: string, s: string, d: string, t: string, name: string)
    requires NoSlash(c) && NoSlash(d) && NoSlash(s) && NoSlash(t)
    requires c + "/" + (s + "/") <= name && d + "/" + (t + "/") <= name
    ensures c == d && s == t
  {
    var u, v := s + "/", t + "/";
    HeadUnique(c, u, d, v);
    TailUnique(c, u, v);
    assert u == s + "/" + "" && v == t + "/" + "";
    HeadUnique(s, "", t, "");
  }

  lemma {:induction false} DropPrefix(a: string, x: string, name: string)
    requires a + x <= name
    ensures |a| <= |name| && x <= name[|a|..]
  {
  }

  lemma {:induction false} DirectoryUnique(p: CityDay, q: CityDay, name: string)
    requires Approved(p) && Approved(q)
    requires Directory(p) <= name && Directory(q) <= name
    ensures p == q
  {
    CitiesHaveNoSlash(p.city);
    CitiesHaveNoSlash(q.city);
    StampShape(p.day);
    StampShape(q.day);
    hide Stamp;
    var root := "city_days" + "/";
    DropPrefix(root, p.city + "/" + (Stamp(p.day) + "/"), name);
    DropPrefix(root, q.city + "/" + (Stamp(q.day) + "/"), name);
    TwoSegments(p.city, Stamp(p.day), q.city, Stamp(q.day), name[|root|..]);
  }

  lemma {:induction false} SameExtension(s: string, t: string, ext: string)
    requires s + ext == t + ext
    ensures s == t
  {
    assert |s| == |t|;
    assert s == (s + ext)[..|s|] == (t + ext)[..|t|] == t;
  }

  lemma {:induction false} ClaimUnique(p: CityDay, q: CityDay)
    requires Approved(p) && Approved(q)
    requires ClaimPath(p) == ClaimPath(q)
    ensures p == q
  {
    CitiesHaveNoSlash(p.city);
    CitiesHaveNoSlash(q.city);
    StampShape(p.day);
    StampShape(q.day);
    hide Stamp;
    var root, ext := "claims/", ".json";
    var u, v := Stamp(p.day) + ext, Stamp(q.day) + ext;
    DropPrefix(root, p.city + "/" + u, ClaimPath(p));
    DropPrefix(root, q.city + "/" + v, ClaimPath(p));
    HeadUnique(p.city, u, q.city, v);
    TailUnique(p.city, u, v);
    assert |u| == |v|;
    SameExtension(Stamp(p.day), Stamp(q.day), ext);
  }

  lemma {:induction false} RootsDiffer(p: CityDay, q: CityDay)
    requires Approved(p) && Approved(q)
    ensures !(Directory(p) <= ClaimPath(q)) && !(Directory(q) <= ClaimPath(p))
  {
    assert Directory(p)[1] == 'i' && Directory(q)[1] == 'i';
    assert ClaimPath(p)[1] == 'l' && ClaimPath(q)[1] == 'l';
  }

  /** No object name passes the checks of two different city/date stores. */
  lemma {:induction false} KeysDisjoint(p: CityDay, q: CityDay, name: string)
    requires Approved(p) && Approved(q)
    requires Accepts(p, name) && Accepts(q, name)
    ensures p == q
  {
    RootsDiffer(p, q);
    if name == ClaimPath(p) {
      ClaimUnique(p, q);
    } else {
      DirectoryUnique(p, q, name);
    }
  }

  /** The evidence objects of one city day, besides its claim. */
  datatype Artifact =
    | Start
    | RawWeather
    | RawKalshi(n: nat)
    | Weather
    | Market
    | Forecast
    | Packet
    | Failure
    | DelayedBooks
    | DelayedFailure
    | StructuredLog
    | Manifest

  function RelativeName(a: Artifact): string {
    match a
    case Start => "start.json"
    case RawWeather => "raw" + "/" + "weather_feature_collection.json"
    case RawKalshi(n) => "raw" + "/" + ("kalshi" + "/" + (Pad3(n) + ".json"))
    case Weather => "weather.json"
    case Market => "market.json"
    case Forecast => "forecast.json"
    case Packet => "packet.json"
    case Failure => "failure.json"
    case DelayedBooks => "delayed_books.json"
    case DelayedFailure => "delayed_snapshot_failure.json"
    case StructuredLog => "structured_log.json"
    case Manifest => "SHA256SUMS.json"
  }

  /** `store.path(name)`. */
  function ArtifactPath(p: CityDay, a: Artifact): string
    requires Approved(p)
  {
    Directory(p) + RelativeName(a)
  }

  lemma {:induction false} SplitNoSlash(a: string)
    requires NoSlash(a)
    ensures Split(a) == [a]
  {
    if a != "" {
      SplitNoSlash(a[1..]);
      assert a == [a[0]] + a[1..];
    }
  }

  lemma {:induction false} SplitHead(a: string, rest: string)
    requires NoSlash(a)
    ensures Split(a + "/" + rest) == [a] + Split(rest)
  {
    var s := a + "/" + rest;
    if a == "" {
      assert s[1..] == rest;
    } else {
      SplitHead(a[1..], rest);
      assert s[1..] == a[1..] + "/" + rest;
      assert a == [a[0]] + a[1..];
    }
  }

  /** Length and first letter tell the fixed names apart. */
  function Signature(a: Artifact): (nat, char) {
    match a
    case Start => (10, 's')
    case RawWeather => (35, 'r')
    case RawKalshi(_) => (0, 'r')
    case Weather => (12, 'w')
    case Market => (11, 'm')
    case Forecast => (13, 'f')
    case Packet => (11, 'p')
    case Failure => (12, 'f')
    case DelayedBooks => (18, 'd')
    case DelayedFailure => (29, 'd')
    case StructuredLog => (19, 's')
    case Manifest => (15, 'S')
  }

  lemma {:induction false} NameSignature(a: Artifact)
    ensures |RelativeName(a)| > 4 && RelativeName(a)[0] == Signature(a).1
    ensures !a.RawKalshi? ==> |RelativeName(a)| == Signature(a).0
    ensures a.RawKalshi? <==> RelativeName(a)[0] == 'r' && RelativeName(a)[4] == 'k'
  {
  }

  lemma {:induction false} FlatNames(a: Artifact)
    ensures !a.RawWeather? && !a.RawKalshi? ==> NoSlash(RelativeName(a)) && |RelativeName(a)| > 2
  {
  }

  lemma {:induction false} PlainPart(s: string)
    requires NoSlash(s) && |s| > 2
    ensures CleanParts(s)
  {
    SplitNoSlash(s);
  }

  lemma {:induction false} PrefixedPart(a: string, rest: string)
    requires NoSlash(a) && |a| > 2
    requires CleanParts(rest)
    ensures CleanParts(a + "/" + rest)
  {
    SplitHead(a, rest);
  }

  ghost predicate CleanParts(s: string) {
    "" !in Split(s) && ".." !in Split(s)
  }

  lemma {:induction false} NestedParts(a: string, b: string, file: string)
    requires NoSlash(a) && NoSlash(b) && NoSlash(file) && |a| > 2 && |b| > 2 && |file| > 2
    ensures CleanParts(a + "/" + file) && CleanParts(a + "/" + (b + "/" + file))
  {
    PlainPart(file);
    PrefixedPart(a, file);
    PrefixedPart(b, file);
    PrefixedPart(a, b + "/" + file);
  }

  lemma {:induction false} RawNames(n: nat)
    ensures NoSlash("raw") && NoSlash("kalshi") && NoSlash("weather_feature_collection.json")
    ensures NoSlash(Pad3(n) + ".json")
  {
    Pad3RoundTrip(n);
  }

  lemma {:induction false} RelativeNameParts(a: Artifact)
    ensures CleanParts(RelativeName(a))
  {
    if a.RawWeather? {
      RawNames(0);
      NestedParts("raw", "kalshi", "weather_feature_collection.json");
    } else if a.RawKalshi? {
      RawNames(a.n);
      NestedParts("raw", "kalshi", Pad3(a.n) + ".json");
    } else {
      FlatNames(a);
      PlainPart(RelativeName(a));
    }
  }

  lemma {:induction false} UnderDirectory(p: CityDay, rest: string)
    requires Approved(p)
    requires CleanParts(rest)
    ensures Accepts(p, Directory(p) + rest)
  {
    CitiesHaveNoSlash(p.city);
    StampShape(p.day);
    var root := "city_days";
    var inner := Stamp(p.day) + "/" + rest;
    assert Directory(p) + rest == root + "/" + (p.city + "/" + inner) by {
      hide Stamp;
    }
    PrefixedPart(Stamp(p.day), rest);
    PrefixedPart(p.city, inner);
    PrefixedPart(root, p.city + "/" + inner);
  }

  /** Every path the collector builds passes its own store's check. */
  lemma {:induction false} ArtifactAccepted(p: CityDay, a: Artifact)
    requires Approved(p)
    ensures Accepts(p, ArtifactPath(p, a)) && Accepts(p, ClaimPath(p))
    ensures ArtifactPath(p, a) != ClaimPath(p)
  {
    RelativeNameParts(a);
    UnderDirectory(p, RelativeName(a));
    RootsDiffer(p, p);
    assert Directory(p) <= ArtifactPath(p, a);
  }

  lemma {:induction false} RawKalshiInjective(m: nat, n: nat)
    requires RelativeName(RawKalshi(m)) == RelativeName(RawKalshi(n))
    ensures m == n
  {
    Pad3RoundTrip(m);
    Pad3RoundTrip(n);
    hide Pad3;
    var raw, kalshi, ext := "raw" + "/", "kalshi" + "/", ".json";
    var s, t := Pad3(m) + ext, Pad3(n) + ext;
    var name := RelativeName(RawKalshi(m));
    assert raw + (kalshi + s) == name && raw + (kalshi + t) == name;
    DropPrefix(raw, kalshi + s, name);
    DropPrefix(raw, kalshi + t, name);
    DropPrefix(kalshi, s, name[|raw|..]);
    DropPrefix(kalshi, t, name[|raw|..]);
    assert s == t;
    SameExtension(Pad3(m), Pad3(n), ext);
  }

  lemma {:induction false} RelativeNameInjective(a: Artifact, b: Artifact)
    requires RelativeName(a) == RelativeName(b)
    ensures a == b
  {
    NameSignature(a);
    NameSignature(b);
    if a.RawKalshi? && b.RawKalshi? {
      RawKalshiInjective(a.n, b.n);
    }
    hide RelativeName;
  }

  lemma {:induction false} ArtifactPathInjective(p: CityDay, a: Artifact, b: Artifact)
    requires Approved(p) && ArtifactPath(p, a) == ArtifactPath(p, b)
    ensures a == b
  {
    var x := ArtifactPath(p, a);
    assert RelativeName(a) == x[|Directory(p)|..] == RelativeName(b);
    RelativeNameInjective(a, b);
    hide RelativeName, Directory;
  }

  /** Dates and numbers as they are written in names. */
  lemma {:induction false} NameTexts()
    ensures Stamp(3) == "20261003" && Stamp(14) == "20261014"
    ensures Pad3(7) == "007" && Pad3(20) == "020" && Pad3(100) == "100"
    ensures NatText(10) == "10" && NatText(100) == "100"
  {
    assert Pad3(100) == NatText(100) == NatText(10) + ['0'] == ['1'] + ['0'] + ['0'];
  }

  /** A name that climbs out of the city's own directory is refused, whatever it goes on with; so is an empty part. */
  lemma {:induction false} ClimbingRefused(p: CityDay, part: string, rest: string)
    requires Approved(p) && (part == ".." || part == "")
    ensures !Accepts(p, Directory(p) + (part + "/" + rest))
  {
    CitiesHaveNoSlash(p.city);
    StampShape(p.day);
    RootsDiffer(p, p);
    var root := "city_days";
    var inner := Stamp(p.day) + "/" + (part + "/" + rest);
    var name := Directory(p) + (part + "/" + rest);
    assert name == root + "/" + (p.city + "/" + inner) by {
      hide Stamp;
    }
    SplitHead(part, rest);
    SplitHead(Stamp(p.day), part + "/" + rest);
    SplitHead(p.city, inner);
    SplitHead(root, p.city + "/" + inner);
    var parts := [root] + ([p.city] + ([Stamp(p.day)] + ([part] + Split(rest))));
    assert Split(name) == parts && parts[3] == part;
    assert Directory(p) <= name;
    hide Stamp, Split, Directory, ClaimPath;
  }
}
