/** `run_city` in its own statement order over the mutable store, and the protocol task it is. */
module CityRuns {
  import opened CollectorKeys
  import opened Collector
  import opened CityStores

  /** One task stepping alone for `n` steps of its environment `x`. */
  function Alone(objects: Objects, t: Task, x: nat -> Input, n: nat): (Objects, Task) {
    if n == 0 then (objects, t)
    else
      var (after, u) := Alone(objects, t, x, n - 1);
      TaskStep(after, u, x(n - 1))
  }

  /** The statements so far are the task's first `n` steps. */
  ghost predicate At(store: CityStore, start: Objects, x: nat -> Input, n: nat, t: Task)
    reads store, store.inner
  {
    && (store.inner.objects, t) == Alone(start, Fresh(store.day), x, n)
    && t.day == store.day && t.hashes == store.hashes
  }

  /** One statement is one step: its access is the task's next one, and what follows is the continuation. */
  lemma {:induction false} Stepped(
    start: Objects, day: Day, x: nat -> Input, n: nat, before: Objects, t: Task, after: Objects, reply: Reply)
    requires (before, t) == Alone(start, Fresh(day), x, n)
    requires (after, reply) == ApplyOp(before, t.day, NextOp(t), x(n).storeError)
    ensures Alone(start, Fresh(day), x, n + 1) == (after, Continue(Record(t, reply), reply, x(n)))
  {
    hide ApplyOp, NextOp, Continue, Record;
  }

  /** `store.create(store.path(name), payload)` for a task whose next access is that create. */
  method Write(store: CityStore, ghost start: Objects, x: nat -> Input, n: nat, t: Task, name: string, payload: Payload)
    returns (reply: Reply, u: Task)
    requires At(store, start, x, n, t) && NextOp(t) == Op.Create(name, payload)
    modifies store`hashes, store.inner
    ensures u == Record(t, reply) && u.hashes == store.hashes
    ensures (store.inner.objects, Continue(u, reply, x(n))) == Alone(start, Fresh(store.day), x, n + 1)
  {
    hide NextOp, Continue, Alone;
    ghost var before := store.inner.objects;
    reply := store.Create(name, payload, x(n).storeError);
    u := t.(hashes := store.hashes);
    Stepped(start, store.day, x, n, before, t, store.inner.objects, reply);
  }

  /** `store.exists(name)` for a task whose next access is that probe. */
  method Look(store: CityStore, ghost start: Objects, x: nat -> Input, n: nat, t: Task, name: string) returns (reply: Reply)
    requires At(store, start, x, n, t) && NextOp(t) == Probe(name)
    ensures (store.inner.objects, Continue(t, reply, x(n))) == Alone(start, Fresh(store.day), x, n + 1)
  {
    hide NextOp, Continue, Alone;
    reply := store.Exists(name, x(n).storeError);
    Stepped(start, store.day, x, n, store.inner.objects, t, store.inner.objects, reply);
    assert Record(t, reply) == t;
  }

  /** A statement without a store access. */
  lemma {:induction false} Computed(start: Objects, day: Day, x: nat -> Input, n: nat, objects: Objects, t: Task)
    requires (objects, t) == Alone(start, Fresh(day), x, n) && NextOp(t) == NoOp
    ensures Alone(start, Fresh(day), x, n + 1) == (objects, Continue(t, Silence, x(n)))
  {
    hide NextOp, Continue;
    Stepped(start, day, x, n, objects, t, objects, Silence);
  }

  /** The five probes of `acquire_claim`, then the claim itself. */
  method AcquireClaim(store: CityStore, ghost start: Objects, x: nat -> Input, n0: nat, t0: Task)
    returns (t: Task, n: nat)
    requires At(store, start, x, n0, t0) && t0.pc.CheckExisting? && t0.pc.i == 0
    modifies store`hashes, store.inner
    ensures At(store, start, x, n, t)
    ensures t.pc == Done(DuplicateClaim) || t.pc == Raised || (if t0.pc.late then t.pc == LateFailure else t.pc == CreateStart(t0.pc.at))
  {
    hide Alone, ArtifactPath, ClaimPath, ApplyOp, ContinueAcquiring, ContinueSealing, ContinueDelayed;
    var late, at := t0.pc.late, t0.pc.at;
    t, n := t0, n0;
    var i: nat := 0;
    while i < 5
      invariant i <= 5 && At(store, start, x, n, t)
      invariant t.pc == if i < 5 then CheckExisting(late, at, i) else CreateClaim(late, at)
    {
      var reply := Look(store, start, x, n, t, ArtifactPath(store.day, ProbedArtifact(i)));
      n := n + 1;
      if !reply.Present? {
        t := t.(pc := Raised);
        return;
      }
      if reply.found {
        t := t.(pc := Done(DuplicateClaim));
        return;
      }
      i := i + 1;
      t := t.(pc := if i < 5 then CheckExisting(late, at, i) else CreateClaim(late, at));
    }
    t, n := CreateTheClaim(store, start, x, n, t);
  }

  method CreateTheClaim(store: CityStore, ghost start: Objects, x: nat -> Input, n0: nat, t0: Task)
    returns (t: Task, n: nat)
    requires At(store, start, x, n0, t0) && t0.pc.CreateClaim?
    modifies store`hashes, store.inner
    ensures At(store, start, x, n, t)
    ensures t.pc == Done(DuplicateClaim) || t.pc == Raised || (if t0.pc.late then t.pc == LateFailure else t.pc == CreateStart(t0.pc.at))
  {
    hide Alone, ClaimPath, ApplyOp, ContinueAcquiring, ContinueSealing, ContinueDelayed;
    var late, at := t0.pc.late, t0.pc.at;
    var reply;
    reply, t := Write(store, start, x, n0, t0, ClaimPath(store.day), ClaimDoc(late, at));
    n := n0 + 1;
    t := t.(late := late);
    if reply == AlreadyExists {
      t := t.(pc := Done(DuplicateClaim));
    } else if reply != Stored {
      t := t.(pc := Raised);
    } else if late {
      t := t.(pc := LateFailure);
    } else {
      t := t.(pc := CreateStart(at));
    }
  }

  /** A late claim: one failure record and the manifest, nothing is acquired. */
  method RecordLate(store: CityStore, ghost start: Objects, x: nat -> Input, n0: nat, t0: Task)
    returns (t: Task, n: nat)
    requires At(store, start, x, n0, t0) && t0.pc.LateFailure?
    modifies store`hashes, store.inner
    ensures At(store, start, x, n, t) && (t.pc == Done(MissedSchedule) || t.pc == Raised)
  {
    hide Alone, ArtifactPath, ApplyOp, ContinueAcquiring, ContinueSealing, ContinueDelayed;
    var reply;
    reply, t := Write(store, start, x, n0, t0, ArtifactPath(store.day, Failure), FailureDoc(MissedSchedule, GateStage, {}));
    n := n0 + 1;
    if reply != Stored {
      t := t.(pc := Raised);
      return;
    }
    t := t.(pc := LateManifest);
    reply, t := Write(store, start, x, n, t, ArtifactPath(store.day, Manifest), ManifestDoc(store.hashes));
    n := n + 1;
    t := t.(pc := if reply == Stored then Done(MissedSchedule) else Raised);
  }

  /** The start record, then the credentials, each before the window closes. */
  method Open(store: CityStore, ghost start: Objects, x: nat -> Input, n0: nat, t0: Task)
    returns (t: Task, n: nat)
    requires At(store, start, x, n0, t0) && t0.pc.CreateStart?
    modifies store`hashes, store.inner
    ensures At(store, start, x, n, t) && (t.pc == FetchWeather || t.pc.WriteFailure?)
  {
    hide Alone, ArtifactPath, ApplyOp, ContinueClaiming, ContinueSealing, ContinueDelayed;
    var close := Close(store.day.day);
    var reply;
    reply, t := Write(store, start, x, n0, t0, ArtifactPath(store.day, Start), StartDoc(t0.pc.at));
    n := n0 + 1;
    if reply != Stored {
      t := Fail(t, StartStage, OtherCode);
      return;
    }
    if x(n - 1).now >= close {
      t := Fail(t, StartStage, MissedScheduleCode);
      return;
    }
    t := t.(pc := OpenWeather);
    Computed(start, store.day, x, n, store.inner.objects, t);
    n := n + 1;
    if x(n - 1).fault.Fault? {
      t := Fail(t, CredentialStage, x(n - 1).fault.code);
    } else if x(n - 1).later >= close {
      t := Fail(t, CredentialStage, MissedScheduleCode);
    } else {
      t := t.(pc := FetchWeather);
    }
  }

  /** Fetch the weather, keep the raw answer, validate it. */
  method Weather(store: CityStore, ghost start: Objects, x: nat -> Input, n0: nat, t0: Task)
    returns (t: Task, n: nat)
    requires At(store, start, x, n0, t0) && t0.pc.FetchWeather?
    modifies store`hashes, store.inner
    ensures At(store, start, x, n, t) && (t.pc == MarketOpen || t.pc.WriteFailure?)
  {
    hide Alone, ArtifactPath, ApplyOp, ContinueClaiming, ContinueSealing, ContinueDelayed;
    t, n := t0, n0;
    Computed(start, store.day, x, n, store.inner.objects, t);
    n := n + 1;
    t := t.(weatherFetches := t.weatherFetches + 1);
    if x(n - 1).fault.Fault? {
      t := Fail(t, WeatherStage, x(n - 1).fault.code);
      return;
    }
    t := t.(weather := x(n - 1).content, pc := WriteRawWeather);
    var reply;
    reply, t := Write(store, start, x, n, t, ArtifactPath(store.day, RawWeather), RawDoc(t.weather));
    n := n + 1;
    if reply != Stored {
      t := Fail(t, WeatherStage, OtherCode);
      return;
    }
    t := t.(pc := CheckWeather);
    Computed(start, store.day, x, n, store.inner.objects, t);
    n := n + 1;
    t := if x(n - 1).fault.Fault? then Fail(t, WeatherStage, x(n - 1).fault.code) else t.(pc := MarketOpen);
  }

  /** Ask the exchange, keeping each raw answer under the next number, and assemble the market. */
  method MarketEvent(store: CityStore, ghost start: Objects, x: nat -> Input, n0: nat, t0: Task)
    returns (t: Task, n: nat)
    requires At(store, start, x, n0, t0) && t0.pc.MarketOpen?
    modifies store`hashes, store.inner
    ensures At(store, start, x, n, t) && (t.pc == WriteWeather || t.pc.WriteFailure?)
  {
    hide Alone, ArtifactPath, ApplyOp, ContinueClaiming, ContinueSealing, ContinueDelayed;
    t, n := t0, n0;
    Computed(start, store.day, x, n, store.inner.objects, t);
    n := n + 1;
    if x(n - 1).now >= Close(store.day.day) {
      t := Fail(t, MarketStage, OtherCode);
      return;
    }
    t := t.(pc := MarketGet(0));
    var k: nat := 0;
    while k < MARKET_GETS
      invariant k <= MARKET_GETS && At(store, start, x, n, t)
      invariant t.pc == if k < MARKET_GETS then MarketGet(k) else Assemble
    {
      t, n := MarketAnswer(store, start, x, n, t);
      if t.pc.WriteFailure? {
        return;
      }
      k := k + 1;
    }
    Computed(start, store.day, x, n, store.inner.objects, t);
    n := n + 1;
    if x(n - 1).fault.Fault? {
      t := Fail(t, MarketStage, x(n - 1).fault.code);
      return;
    }
    t := t.(market := x(n - 1).content, decision := x(n - 1).now, pc := WriteWeather);
  }

  /** One `raw_get`: count the request, store its answer. */
  method MarketAnswer(store: CityStore, ghost start: Objects, x: nat -> Input, n0: nat, t0: Task)
    returns (t: Task, n: nat)
    requires At(store, start, x, n0, t0) && t0.pc.MarketGet?
    modifies store`hashes, store.inner
    ensures At(store, start, x, n, t)
    ensures t.pc.WriteFailure? || t.pc == if t0.pc.k + 1 < MARKET_GETS then MarketGet(t0.pc.k + 1) else Assemble
  {
    hide Alone, ArtifactPath, ApplyOp, ContinueClaiming, ContinueSealing, ContinueDelayed;
    var k := t0.pc.k;
    t, n := t0, n0;
    Computed(start, store.day, x, n, store.inner.objects, t);
    n := n + 1;
    t := t.(marketFetches := t.marketFetches + 1);
    if x(n - 1).fault.Fault? {
      t := Fail(t, MarketStage, x(n - 1).fault.code);
      return;
    }
    t := t.(counter := t.counter + 1, pc := MarketWrite(k, x(n - 1).content));
    var reply;
    reply, t := Write(store, start, x, n, t, ArtifactPath(store.day, RawKalshi(t.counter)), RawDoc(t.pc.content));
    n := n + 1;
    if reply != Stored {
      t := Fail(t, MarketStage, OtherCode);
    } else if x(n - 1).fault.Fault? {
      t := Fail(t, MarketStage, x(n - 1).fault.code);
    } else {
      t := t.(pc := if k + 1 < MARKET_GETS then MarketGet(k + 1) else Assemble);
    }
  }

  /** Seal the three components, then the packet that states their hashes. */
  method Seal(store: CityStore, ghost start: Objects, x: nat -> Input, n0: nat, t0: Task)
    returns (t: Task, n: nat)
    requires At(store, start, x, n0, t0) && t0.pc.WriteWeather?
    modifies store`hashes, store.inner
    ensures At(store, start, x, n, t) && (t.pc == DelayedGet(0) || t.pc.WriteFailure?)
  {
    hide Alone, ArtifactPath, ApplyOp, ContinueClaiming, ContinueAcquiring, ContinueDelayed;
    var weather, market := WeatherDoc(t0.weather), MarketDoc(t0.market);
    var forecast := ForecastDoc(Sha(weather), Sha(market), t0.decision);
    var reply;
    reply, t := Write(store, start, x, n0, t0, ArtifactPath(store.day, Artifact.Weather), weather);
    n := n0 + 1;
    if reply != Stored {
      t := Fail(t, SealStage, OtherCode);
      return;
    }
    t := t.(pc := WriteMarket);
    reply, t := Write(store, start, x, n, t, ArtifactPath(store.day, Market), market);
    n := n + 1;
    if reply != Stored {
      t := Fail(t, SealStage, OtherCode);
      return;
    }
    t := t.(pc := WriteForecast);
    reply, t := Write(store, start, x, n, t, ArtifactPath(store.day, Forecast), forecast);
    n := n + 1;
    if reply != Stored {
      t := Fail(t, SealStage, OtherCode);
      return;
    }
    t := t.(pc := WritePacket);
    reply, t := Write(store, start, x, n, t, ArtifactPath(store.day, Packet),
                      PacketDoc(Sha(weather), Sha(market), Sha(forecast), store.hashes));
    n := n + 1;
    t := if reply != Stored then Fail(t, SealStage, OtherCode) else t.(pc := DelayedGet(0));
  }

  /** The `except` branch: the failure record, then the manifest. */
  method RecordFailure(store: CityStore, ghost start: Objects, x: nat -> Input, n0: nat, t0: Task)
    returns (t: Task, n: nat)
    requires At(store, start, x, n0, t0) && t0.pc.WriteFailure?
    modifies store`hashes, store.inner
    ensures At(store, start, x, n, t) && (t.pc == Done(t0.pc.status) || t.pc == Raised)
  {
    hide Alone, ArtifactPath, ApplyOp, ContinueClaiming, ContinueAcquiring, ContinueDelayed;
    var status := t0.pc.status;
    var reply;
    reply, t := Write(store, start, x, n0, t0, ArtifactPath(store.day, Failure), FailureDoc(status, t0.pc.stage, store.hashes.Keys));
    n := n0 + 1;
    if reply != Stored {
      t := t.(pc := Raised);
      return;
    }
    t := t.(pc := FailureManifest(status));
    reply, t := Write(store, start, x, n, t, ArtifactPath(store.day, Manifest), ManifestDoc(store.hashes));
    n := n + 1;
    t := t.(pc := if reply == Stored then Done(status) else Raised);
  }

  /** The ancillary books after the packet is sealed; whatever goes wrong becomes its own record. */
  method Ancillary(store: CityStore, ghost start: Objects, x: nat -> Input, n0: nat, t0: Task)
    returns (t: Task, n: nat)
    requires At(store, start, x, n0, t0) && t0.pc == DelayedGet(0)
    modifies store`hashes, store.inner
    ensures At(store, start, x, n, t) && (t.pc == WriteLog(Captured) || t.pc.WriteDelayedFailure?)
  {
    hide Alone, ArtifactPath, ApplyOp, ContinueClaiming, ContinueAcquiring, ContinueSealing;
    t, n := t0, n0;
    var k: nat := 0;
    while k < SIBLINGS
      invariant k <= SIBLINGS && At(store, start, x, n, t)
      invariant t.pc == if k < SIBLINGS then DelayedGet(k) else DelayedFinish
    {
      t, n := DelayedAnswer(store, start, x, n, t);
      if t.pc.WriteDelayedFailure? {
        return;
      }
      k := k + 1;
    }
    Computed(start, store.day, x, n, store.inner.objects, t);
    n := n + 1;
    if x(n - 1).now > t.decision + 330 * SECOND {
      t := FailDelayed(t, DelayedMissedCode);
      return;
    }
    t := t.(pc := WriteDelayedBooks(x(n - 1).content));
    var reply;
    reply, t := Write(store, start, x, n, t, ArtifactPath(store.day, Artifact.DelayedBooks), DelayedDoc(t.pc.content));
    n := n + 1;
    t := if reply != Stored then FailDelayed(t, OtherCode) else t.(pc := WriteLog(Captured));
  }

  method DelayedAnswer(store: CityStore, ghost start: Objects, x: nat -> Input, n0: nat, t0: Task)
    returns (t: Task, n: nat)
    requires At(store, start, x, n0, t0) && t0.pc.DelayedGet?
    modifies store`hashes, store.inner
    ensures At(store, start, x, n, t)
    ensures t.pc.WriteDelayedFailure? || t.pc == if t0.pc.k + 1 < SIBLINGS then DelayedGet(t0.pc.k + 1) else DelayedFinish
  {
    hide Alone, ArtifactPath, ApplyOp, ContinueClaiming, ContinueAcquiring, ContinueSealing;
    var k := t0.pc.k;
    t, n := t0, n0;
    Computed(start, store.day, x, n, store.inner.objects, t);
    n := n + 1;
    if x(n - 1).now > t.decision + 330 * SECOND {
      t := FailDelayed(t, DelayedMissedCode);
      return;
    }
    t := t.(marketFetches := t.marketFetches + 1);
    if x(n - 1).fault.Fault? {
      t := FailDelayed(t, x(n - 1).fault.code);
      return;
    }
    t := t.(counter := t.counter + 1, pc := DelayedWrite(k, x(n - 1).content));
    t, n := DelayedStored(store, start, x, n, t);
  }

  method DelayedStored(store: CityStore, ghost start: Objects, x: nat -> Input, n0: nat, t0: Task)
    returns (t: Task, n: nat)
    requires At(store, start, x, n0, t0) && t0.pc.DelayedWrite?
    modifies store`hashes, store.inner
    ensures At(store, start, x, n, t)
    ensures t.pc.WriteDelayedFailure? || t.pc == if t0.pc.k + 1 < SIBLINGS then DelayedGet(t0.pc.k + 1) else DelayedFinish
  {
    hide Alone, ArtifactPath, ApplyOp, ContinueClaiming, ContinueAcquiring, ContinueSealing;
    var k := t0.pc.k;
    var reply;
    reply, t := Write(store, start, x, n0, t0, ArtifactPath(store.day, RawKalshi(t0.counter)), RawDoc(t0.pc.content));
    n := n0 + 1;
    if reply != Stored {
      t := FailDelayed(t, OtherCode);
    } else if x(n - 1).fault.Fault? {
      t := FailDelayed(t, x(n - 1).fault.code);
    } else {
      t := t.(pc := if k + 1 < SIBLINGS then DelayedGet(k + 1) else DelayedFinish);
    }
  }

  /** The record of what went wrong with the ancillary books, if anything, then the log and the manifest. */
  method Finish(store: CityStore, ghost start: Objects, x: nat -> Input, n0: nat, t0: Task)
    returns (t: Task, n: nat)
    requires At(store, start, x, n0, t0) && (t0.pc.WriteLog? || t0.pc.WriteDelayedFailure?)
    modifies store`hashes, store.inner
    ensures At(store, start, x, n, t) && (t.pc == Done(t0.pc.status) || t.pc == Raised)
  {
    hide Alone, ArtifactPath, ApplyOp, ContinueClaiming, ContinueAcquiring, ContinueSealing;
    var status := t0.pc.status;
    var reply;
    t, n := t0, n0;
    if t.pc.WriteDelayedFailure? {
      reply, t := Write(store, start, x, n, t, ArtifactPath(store.day, DelayedFailure), DelayedFailureDoc(status));
      n := n + 1;
      if reply != Stored {
        t := t.(pc := Raised);
        return;
      }
      t := t.(pc := WriteLog(status));
    }
    reply, t := Write(store, start, x, n, t, ArtifactPath(store.day, StructuredLog), LogDoc(status, t.counter));
    n := n + 1;
    if reply != Stored {
      t := t.(pc := Raised);
      return;
    }
    t := t.(pc := WriteManifest(status));
    reply, t := Write(store, start, x, n, t, ArtifactPath(store.day, Manifest), ManifestDoc(store.hashes));
    n := n + 1;
    t := t.(pc := if reply == Stored then Done(status) else Raised);
  }

  /**
   `run_city` in its own statement order, to its end: whatever the environment `x` does, it is the protocol's
   task stepping alone, and leaves exactly the hashes of what it created.
  */
  method RunCity(store: CityStore, x: nat -> Input) returns (t: Task, n: nat)
    requires store.hashes == map[]
    modifies store`hashes, store.inner
    ensures (store.inner.objects, t) == Alone(old(store.inner.objects), Fresh(store.day), x, n)
    ensures t.hashes == store.hashes && (t.pc.Done? || t.pc.Raised?)
  {
    hide Alone, ApplyOp, ContinueAcquiring, ContinueSealing, ContinueDelayed;
    ghost var start := store.inner.objects;
    t, n := Fresh(store.day), 0;
    assert At(store, start, x, 0, t) by {
      NotStarted(start, t, x);
    }
    var at := x(0).now;
    var timing := GateVerdict(store.day.day, at);
    Computed(start, store.day, x, 0, start, t);
    n := 1;
    if timing == Refused {
      t := t.(pc := Raised);
      return;
    }
    t := t.(pc := CheckExisting(timing == Late, at, 0));
    t, n := AcquireClaim(store, start, x, n, t);
    if t.pc.LateFailure? {
      t, n := RecordLate(store, start, x, n, t);
    } else if t.pc.CreateStart? {
      t, n := Attempt(store, start, x, n, t);
    }
  }

  lemma {:induction false} NotStarted(start: Objects, t: Task, x: nat -> Input)
    ensures Alone(start, t, x, 0) == (start, t)
  {
  }

  /** The one scientific attempt. */
  method Attempt(store: CityStore, ghost start: Objects, x: nat -> Input, n0: nat, t0: Task)
    returns (t: Task, n: nat)
    requires At(store, start, x, n0, t0) && t0.pc.CreateStart?
    modifies store`hashes, store.inner
    ensures At(store, start, x, n, t) && (t.pc.Done? || t.pc.Raised?)
  {
    hide At;
    t, n := Open(store, start, x, n0, t0);
    if t.pc.FetchWeather? {
      t, n := Weather(store, start, x, n, t);
    }
    if t.pc.MarketOpen? {
      t, n := MarketEvent(store, start, x, n, t);
    }
    if t.pc.WriteWeather? {
      t, n := Seal(store, start, x, n, t);
    }
    if t.pc.WriteFailure? {
      t, n := RecordFailure(store, start, x, n, t);
      return;
    }
    t, n := Ancillary(store, start, x, n, t);
    t, n := Finish(store, start, x, n, t);
  }

  // ----- the protocol's theorems apply -----

  lemma {:induction false} RunSnoc(w: World, schedule: seq<Event>, e: Event)
    ensures Run(w, schedule + [e]) == Step(Run(w, schedule), e)
    decreases |schedule|
  {
    hide Step;
    if schedule == [] {
      assert ([] + [e])[1..] == [];
    } else {
      assert (schedule + [e])[1..] == schedule[1..] + [e];
      RunSnoc(Step(w, schedule[0]), schedule[1..], e);
    }
  }

  /** A task stepping alone is a run of the protocol, so what holds of every run holds of `RunCity`. */
  lemma {:induction false} AloneIsRun(objects: Objects, t: Task, x: nat -> Input, n: nat) returns (schedule: seq<Event>)
    ensures |schedule| == n
    ensures var (after, u) := Alone(objects, t, x, n); Run(World(objects, [t]), schedule) == World(after, [u])
  {
    hide TaskStep;
    if n == 0 {
      schedule := [];
    } else {
      var rest := AloneIsRun(objects, t, x, n - 1);
      var e := Event(0, x(n - 1));
      var (after, u) := Alone(objects, t, x, n - 1);
      schedule := rest + [e];
      RunSnoc(World(objects, [t]), rest, e);
      assert Step(World(after, [u]), e).tasks == [TaskStep(after, u, x(n - 1)).1];
    }
  }
}
