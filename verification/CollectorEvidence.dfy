/**
 The evidence invariant of one city and date: over every run of any number of tasks, exactly the
 task that created the claim acquires and writes, its creates never collide, packet and failure
 exclude each other, and packet and manifest say the truth about the stored objects.
*/
module CollectorEvidence {
  import opened CollectorKeys
  import opened Collector

  ghost predicate Has(t: Task, a: Artifact) {
    ArtifactPath(t.day, a) in t.hashes
  }

  ghost predicate Holds(objects: Objects, p: Day, a: Artifact, payload: Payload) {
    var n := ArtifactPath(p, a);
    n in objects && objects[n] == payload
  }

  /** Raw evidence and, from the second argument on, sealed components in writing order. */
  predicate Evidence(a: Artifact, raws: nat, components: nat) {
    match a
    case Start => true
    case RawWeather => true
    case RawKalshi(n) => n <= raws
    case Weather => components >= 1
    case Market => components >= 2
    case Forecast => components >= 3
    case Packet => components >= 4
    case _ => false
  }

  /** The artifacts a claim owner may have written when it is at `pc`. */
  predicate MayHold(pc: Pc, counter: nat, a: Artifact) {
    match pc
    case LateManifest => a == Failure
    case OpenWeather => a == Start
    case FetchWeather => a == Start
    case WriteRawWeather => a == Start
    case CheckWeather => Evidence(a, counter, 0)
    case MarketOpen => Evidence(a, counter, 0)
    case MarketGet(_) => Evidence(a, counter, 0)
    case MarketWrite(_, _) => counter >= 1 && Evidence(a, counter - 1, 0)
    case Assemble => Evidence(a, counter, 0)
    case WriteWeather => Evidence(a, counter, 0)
    case WriteMarket => Evidence(a, counter, 1)
    case WriteForecast => Evidence(a, counter, 2)
    case WritePacket => Evidence(a, counter, 3)
    case WriteFailure(_, _) => Evidence(a, counter, 3)
    case FailureManifest(_) => a == Failure || Evidence(a, counter, 3)
    case DelayedGet(_) => Evidence(a, counter, 4)
    case DelayedWrite(_, _) => counter >= 1 && Evidence(a, counter - 1, 4)
    case DelayedFinish => Evidence(a, counter, 4)
    case WriteDelayedBooks(_) => Evidence(a, counter, 4)
    case WriteDelayedFailure(_) => Evidence(a, counter, 4)
    case WriteLog(_) => a == DelayedBooks || a == DelayedFailure || Evidence(a, counter, 4)
    case WriteManifest(_) =>
      a == StructuredLog || a == DelayedBooks || a == DelayedFailure || Evidence(a, counter, 4)
    case Done(_) => true
    case Raised => true
    case _ => false
  }

  /** How many of weather, market, forecast and packet a claim owner at `pc` has certainly sealed. */
  function Sealed(pc: Pc): nat {
    match pc
    case WriteMarket => 1
    case WriteForecast => 2
    case WritePacket => 3
    case DelayedGet(_) => 4
    case DelayedWrite(_, _) => 4
    case DelayedFinish => 4
    case WriteDelayedBooks(_) => 4
    case WriteDelayedFailure(_) => 4
    case WriteLog(_) => 4
    case WriteManifest(_) => 4
    case Done(status) => if SealedStatus(status) then 4 else 0
    case _ => 0
  }

  /** The statuses a run reports only after its packet is stored. */
  predicate SealedStatus(status: Status) {
    status in {Captured, DelayedSnapshotMissed, DelayedSnapshotFailed}
  }

  predicate FailureStatus(status: Status) {
    status in {MissedSchedule, DataNotReady, Failed}
  }

  predicate Reported(pc: Pc) {
    match pc
    case WriteFailure(status, _) => FailureStatus(status)
    case FailureManifest(status) => FailureStatus(status)
    case WriteDelayedFailure(status) => SealedStatus(status)
    case WriteLog(status) => SealedStatus(status)
    case WriteManifest(status) => SealedStatus(status)
    case Done(status) => SealedStatus(status) || FailureStatus(status)
    case _ => true
  }

  /** A task that has not created the claim. */
  ghost predicate Visitor(t: Task) {
    && t.hashes == map[]
    && t.weatherFetches == t.marketFetches == 0
    && match t.pc
       case Gate => true
       case CheckExisting(_, _, _) => true
       case CreateClaim(_, _) => true
       case Done(status) => status == DuplicateClaim
       case Raised => true
       case _ => false
  }

  predicate OwnerPc(pc: Pc) {
    !pc.Gate? && !pc.CheckExisting? && !pc.CreateClaim?
  }

  predicate BeforeFetch(pc: Pc) {
    pc.CreateStart? || pc.OpenWeather? || pc.FetchWeather? || pc.LateFailure? || pc.LateManifest?
  }

  /** The store and this task's own record agree, object by object. */
  ghost predicate OwnRecord(objects: Objects, t: Task) {
    && (forall n :: n in objects && Accepts(t.day, n) <==> n in t.hashes)
    && (forall n :: n in t.hashes ==> t.hashes[n] == Sha(objects[n]))
    && ClaimPath(t.day) in objects && objects[ClaimPath(t.day)].ClaimDoc?
    && objects[ClaimPath(t.day)].late == t.late
  }

  ghost predicate SealedComponents(objects: Objects, t: Task, k: nat) {
    && (k >= 1 ==> Holds(objects, t.day, Weather, WeatherBytes(t)))
    && (k >= 2 ==> Holds(objects, t.day, Market, MarketBytes(t)))
    && (k >= 3 ==> Holds(objects, t.day, Forecast, ForecastBytes(t)))
  }

  /** A stored packet seals the three stored components and records what was written before it. */
  ghost predicate PacketTruth(objects: Objects, t: Task) {
    var n := ArtifactPath(t.day, Packet);
    n in objects ==>
      && objects[n].PacketDoc?
      && objects[n].weather == Sha(WeatherBytes(t))
      && objects[n].market == Sha(MarketBytes(t))
      && objects[n].forecast == Sha(ForecastBytes(t))
      && SealedComponents(objects, t, 3)
      && (forall m :: m in objects[n].raw ==> m in t.hashes && objects[n].raw[m] == t.hashes[m])
  }

  /** A stored manifest ends the run and lists everything else the run created. */
  ghost predicate ManifestTruth(objects: Objects, t: Task) {
    var n := ArtifactPath(t.day, Manifest);
    n in objects ==> t.pc.Done? && objects[n] == ManifestDoc(t.hashes - {n})
  }

  ghost predicate Outcome(t: Task) {
    && !(Has(t, Packet) && Has(t, Failure))
    && (Sealed(t.pc) == 4 ==> Has(t, Packet))
    && (t.pc.FailureManifest? || t.pc.LateManifest? || (t.pc.Done? && FailureStatus(t.pc.status)) ==> Has(t, Failure))
    && (t.pc.Done? ==> Has(t, Manifest))
  }

  ghost predicate Fetches(t: Task) {
    && t.weatherFetches <= 1
    && (BeforeFetch(t.pc) ==> t.weatherFetches == t.marketFetches == 0)
    && (t.late ==> t.weatherFetches == t.marketFetches == 0)
    && (t.late ==> t.pc.LateFailure? || t.pc.LateManifest? || t.pc.Done? || t.pc.Raised?)
  }

  /** The task that created the claim. */
  ghost predicate Owner(objects: Objects, t: Task) {
    && OwnerPc(t.pc) && Reported(t.pc)
    && OwnRecord(objects, t)
    && (forall a :: Has(t, a) ==> MayHold(t.pc, t.counter, a))
    && SealedComponents(objects, t, Sealed(t.pc))
    && PacketTruth(objects, t)
    && ManifestTruth(objects, t)
    && Outcome(t)
    && Fetches(t)
  }

  ghost predicate Unclaimed(objects: Objects, p: Day) {
    ClaimPath(p) !in objects ==> forall n :: n in objects ==> !Accepts(p, n)
  }

  ghost predicate HasOwner(w: World, p: Day) {
    exists i :: 0 <= i < |w.tasks| && w.tasks[i].day == p && w.tasks[i].hashes != map[]
  }

  ghost predicate EvidenceInvariant(w: World, p: Day) {
    && Unclaimed(w.objects, p)
    && (ClaimPath(p) in w.objects ==> HasOwner(w, p))
    && (forall i :: 0 <= i < |w.tasks| && w.tasks[i].day == p ==>
          Visitor(w.tasks[i]) || Owner(w.objects, w.tasks[i]))
    && (forall i, j :: 0 <= i < j < |w.tasks| && w.tasks[i].day == p && w.tasks[j].day == p ==>
          w.tasks[i].hashes == map[] || w.tasks[j].hashes == map[])
  }

  // ----- one step of the owner -----

  datatype Target = Nothing | Makes(artifact: Artifact)

  /** The artifact an owner at `pc` creates, if its next access is a create. */
  function Written(pc: Pc, counter: nat): Target {
    match pc
    case LateFailure => Makes(Failure)
    case LateManifest => Makes(Manifest)
    case CreateStart(_) => Makes(Start)
    case WriteRawWeather => Makes(RawWeather)
    case MarketWrite(_, _) => Makes(RawKalshi(counter))
    case WriteWeather => Makes(Weather)
    case WriteMarket => Makes(Market)
    case WriteForecast => Makes(Forecast)
    case WritePacket => Makes(Packet)
    case WriteFailure(_, _) => Makes(Failure)
    case FailureManifest(_) => Makes(Manifest)
    case DelayedWrite(_, _) => Makes(RawKalshi(counter))
    case WriteDelayedBooks(_) => Makes(DelayedBooks)
    case WriteDelayedFailure(_) => Makes(DelayedFailure)
    case WriteLog(_) => Makes(StructuredLog)
    case WriteManifest(_) => Makes(Manifest)
    case _ => Nothing
  }

  lemma {:induction false} WrittenIsNext(t: Task, a: Artifact)
    requires OwnerPc(t.pc)
    ensures NextOp(t).Create? <==> Written(t.pc, t.counter).Makes?
    ensures NextOp(t).Create? || NextOp(t) == NoOp
    ensures Written(t.pc, t.counter) == Makes(a) ==> NextOp(t).Create? && NextOp(t).name == ArtifactPath(t.day, a)
    ensures Written(t.pc, t.counter) == Makes(a) ==> !MayHold(t.pc, t.counter, a)
  {
    hide ArtifactPath;
  }

  /** An owner's creates never collide, the shared raw-evidence counter included. */
  lemma {:induction false} OwnerNeverCollides(objects: Objects, t: Task, a: Artifact)
    requires Owner(objects, t) && Written(t.pc, t.counter) == Makes(a)
    ensures NextOp(t).Create? && NextOp(t).name == ArtifactPath(t.day, a)
    ensures NextOp(t).name !in objects
    ensures Accepts(t.day, NextOp(t).name) && NextOp(t).name != ClaimPath(t.day)
  {
    hide NextOp, ArtifactPath, ClaimPath, MayHold, Written;
    ArtifactAccepted(t.day, a);
    WrittenIsNext(t, a);
  }

  /** The replies a create-only store gives an owner: a create never finds its name taken. */
  predicate Answer(t: Task, reply: Reply) {
    if Written(t.pc, t.counter) == Nothing then reply == Silence else reply == Stored || reply == StoreError
  }

  lemma {:induction false} OwnerReply(objects: Objects, t: Task, storeError: bool)
    requires Owner(objects, t)
    ensures var (after, reply) := ApplyOp(objects, t.day, NextOp(t), storeError);
            && Answer(t, reply)
            && (if reply == Stored
                then NextOp(t).Create? && after == objects[NextOp(t).name := NextOp(t).payload]
                else after == objects)
  {
    if Written(t.pc, t.counter).Makes? {
      var a := Written(t.pc, t.counter).artifact;
      OwnerNeverCollides(objects, t, a);
    } else {
      WrittenIsNext(t, Start);
    }
    hide NextOp, ArtifactPath, ClaimPath, MayHold, Written;
  }

  // What the local computation after a reply can do to each part of the invariant, phase by phase.

  /** The component whose creation raises `Sealed` to k. */
  function Component(k: nat): Artifact {
    if k <= 1 then Weather else if k == 2 then Market else if k == 3 then Forecast else Packet
  }

  ghost predicate Kept(t: Task, u: Task) {
    && u.hashes == t.hashes && u.day == t.day && u.late == t.late
    && (!t.pc.FetchWeather? && !t.pc.Assemble? ==>
          u.weather == t.weather && u.market == t.market && u.decision == t.decision)
  }

  ghost predicate SealedMove(t: Task, reply: Reply, u: Task) {
    && (Sealed(u.pc) <= Sealed(t.pc) ||
        (reply == Stored && Sealed(u.pc) == Sealed(t.pc) + 1 &&
         Written(t.pc, t.counter) == Makes(Component(Sealed(u.pc)))))
    && (t.pc.FetchWeather? || t.pc.Assemble? ==> Sealed(u.pc) == 0)
  }

  /** Which outcomes a step can newly announce, and what it must have written to do so. */
  ghost predicate Announced(t: Task, reply: Reply, u: Task) {
    && (u.pc.FailureManifest? || u.pc.LateManifest? ==>
          reply == Stored && Written(t.pc, t.counter) == Makes(Failure))
    && (u.pc.Done? && !t.pc.Done? ==>
          && reply == Stored && Written(t.pc, t.counter) == Makes(Manifest)
          && (FailureStatus(u.pc.status) ==> t.pc.FailureManifest? || t.pc.LateManifest?)
          && (SealedStatus(u.pc.status) ==> Sealed(t.pc) == 4))
    && (reply == Stored && Written(t.pc, t.counter) == Makes(Manifest) ==> u.pc.Done?)
    && (t.pc.Done? ==> u == t)
  }

  ghost predicate Facts(t: Task, reply: Reply, u: Task) {
    && OwnerPc(u.pc) && Reported(u.pc)
    && Kept(t, u)
    && SealedMove(t, reply, u)
    && Announced(t, reply, u)
    && (Fetches(t) ==> Fetches(u))
  }

  lemma {:induction false} FactsClaiming(t: Task, reply: Reply, x: Input)
    requires OwnerPc(t.pc) && !AcquiringPhase(t.pc) && !SealingPhase(t.pc) && !DelayedPhase(t.pc)
    requires Answer(t, reply) && Reported(t.pc)
    ensures Facts(t, reply, Continue(t, reply, x))
  {
    hide ContinueAcquiring, ContinueSealing, ContinueDelayed;
  }

  lemma {:induction false} FactsAcquiring(t: Task, reply: Reply, x: Input)
    requires AcquiringPhase(t.pc) && Answer(t, reply) && Reported(t.pc)
    ensures Facts(t, reply, Continue(t, reply, x))
  {
    hide ContinueClaiming, ContinueSealing, ContinueDelayed;
  }

  lemma {:induction false} FactsSealing(t: Task, reply: Reply, x: Input)
    requires SealingPhase(t.pc) && Answer(t, reply) && Reported(t.pc)
    ensures Facts(t, reply, Continue(t, reply, x))
  {
    hide ContinueClaiming, ContinueAcquiring, ContinueDelayed;
  }

  lemma {:induction false} FactsDelayed(t: Task, reply: Reply, x: Input)
    requires DelayedPhase(t.pc) && Answer(t, reply) && Reported(t.pc)
    ensures Facts(t, reply, Continue(t, reply, x))
  {
    hide ContinueClaiming, ContinueAcquiring, ContinueSealing;
  }

  lemma {:induction false} FactsAlways(t: Task, reply: Reply, x: Input)
    requires OwnerPc(t.pc) && Answer(t, reply) && Reported(t.pc)
    ensures Facts(t, reply, Continue(t, reply, x))
  {
    hide Continue, Facts, Answer, Reported;
    if AcquiringPhase(t.pc) {
      FactsAcquiring(t, reply, x);
    } else if SealingPhase(t.pc) {
      FactsSealing(t, reply, x);
    } else if DelayedPhase(t.pc) {
      FactsDelayed(t, reply, x);
    } else {
      FactsClaiming(t, reply, x);
    }
  }

  ghost predicate Permitted(t: Task, reply: Reply, a: Artifact) {
    MayHold(t.pc, t.counter, a) || (reply == Stored && Written(t.pc, t.counter) == Makes(a))
  }

  lemma {:induction false} AllowedClaiming(t: Task, reply: Reply, x: Input, a: Artifact)
    requires OwnerPc(t.pc) && !AcquiringPhase(t.pc) && !SealingPhase(t.pc) && !DelayedPhase(t.pc)
    requires Answer(t, reply) && Permitted(t, reply, a)
    ensures var u := Continue(t, reply, x); MayHold(u.pc, u.counter, a)
  {
    hide ContinueAcquiring, ContinueSealing, ContinueDelayed;
  }

  lemma {:induction false} AllowedAcquiring(t: Task, reply: Reply, x: Input, a: Artifact)
    requires AcquiringPhase(t.pc) && Answer(t, reply) && Permitted(t, reply, a)
    ensures var u := Continue(t, reply, x); MayHold(u.pc, u.counter, a)
  {
    hide ContinueClaiming, ContinueSealing, ContinueDelayed;
  }

  lemma {:induction false} AllowedSealingStored(t: Task, reply: Reply, x: Input, a: Artifact)
    requires SealingPhase(t.pc) && Answer(t, reply) && reply == Stored && Permitted(t, reply, a)
    ensures var u := Continue(t, reply, x); MayHold(u.pc, u.counter, a)
  {
    hide ContinueClaiming, ContinueAcquiring, ContinueDelayed;
  }

  lemma {:induction false} AllowedSealingOther(t: Task, reply: Reply, x: Input, a: Artifact)
    requires SealingPhase(t.pc) && Answer(t, reply) && reply != Stored && Permitted(t, reply, a)
    ensures var u := Continue(t, reply, x); MayHold(u.pc, u.counter, a)
  {
    hide ContinueClaiming, ContinueAcquiring, ContinueDelayed;
  }

  lemma {:induction false} AllowedDelayedStored(t: Task, reply: Reply, x: Input, a: Artifact)
    requires DelayedPhase(t.pc) && Answer(t, reply) && reply == Stored && Permitted(t, reply, a)
    ensures var u := Continue(t, reply, x); MayHold(u.pc, u.counter, a)
  {
    hide ContinueClaiming, ContinueAcquiring, ContinueSealing;
  }

  lemma {:induction false} AllowedDelayedOther(t: Task, reply: Reply, x: Input, a: Artifact)
    requires DelayedPhase(t.pc) && Answer(t, reply) && reply != Stored && Permitted(t, reply, a)
    ensures var u := Continue(t, reply, x); MayHold(u.pc, u.counter, a)
  {
    hide ContinueClaiming, ContinueAcquiring, ContinueSealing;
  }

  lemma {:induction false} AllowedAlways(t: Task, reply: Reply, x: Input, a: Artifact)
    requires OwnerPc(t.pc) && Answer(t, reply) && Permitted(t, reply, a)
    ensures var u := Continue(t, reply, x); MayHold(u.pc, u.counter, a)
  {
    if AcquiringPhase(t.pc) {
      AllowedAcquiring(t, reply, x, a);
    } else if SealingPhase(t.pc) {
      if reply == Stored {
        AllowedSealingStored(t, reply, x, a);
      } else {
        AllowedSealingOther(t, reply, x, a);
      }
    } else if DelayedPhase(t.pc) {
      if reply == Stored {
        AllowedDelayedStored(t, reply, x, a);
      } else {
        AllowedDelayedOther(t, reply, x, a);
      }
    } else {
      AllowedClaiming(t, reply, x, a);
    }
    hide Continue, Permitted, Answer, MayHold;
  }

  // ----- the owner's access -----

  lemma {:induction false} StoredFacts(objects: Objects, t: Task, storeError: bool)
    requires Owner(objects, t)
    ensures var (after, reply) := ApplyOp(objects, t.day, NextOp(t), storeError);
            var r := Record(t, reply);
            && Answer(t, reply) && OwnRecord(after, r) && Answer(r, reply)
            && r.(hashes := t.hashes) == t
            && (forall n :: n in t.hashes ==> n in r.hashes && r.hashes[n] == t.hashes[n])
            && (forall n :: n in objects ==> n in after && after[n] == objects[n])
  {
    hide NextOp, ArtifactPath, ClaimPath, MayHold, Written, Accepts;
    OwnerReply(objects, t, storeError);
    if Written(t.pc, t.counter).Makes? {
      OwnerNeverCollides(objects, t, Written(t.pc, t.counter).artifact);
    }
  }

  /** Exactly the artifact being written appears, with its payload. */
  lemma {:induction false} StoredExactly(objects: Objects, t: Task, storeError: bool, a: Artifact)
    requires Owner(objects, t)
    ensures var (after, reply) := ApplyOp(objects, t.day, NextOp(t), storeError);
            var n := ArtifactPath(t.day, a);
            && (Has(Record(t, reply), a) <==> Has(t, a) || (reply == Stored && Written(t.pc, t.counter) == Makes(a)))
            && (Has(t, a) <==> n in objects)
            && (Has(Record(t, reply), a) <==> n in after)
            && (reply == Stored && Written(t.pc, t.counter) == Makes(a) ==>
                  n !in objects && NextOp(t).Create? && n in after && after[n] == NextOp(t).payload)
  {
    hide NextOp, ArtifactPath, ClaimPath, MayHold, Written, Accepts, Sealed, Outcome, Fetches, PacketTruth, ManifestTruth;
    OwnerReply(objects, t, storeError);
    StoredFacts(objects, t, storeError);
    ArtifactAccepted(t.day, a);
    if Written(t.pc, t.counter).Makes? {
      var b := Written(t.pc, t.counter).artifact;
      OwnerNeverCollides(objects, t, b);
      if ArtifactPath(t.day, a) == ArtifactPath(t.day, b) {
        ArtifactPathInjective(t.day, a, b);
      }
    }
  }

  lemma {:induction false} WrittenPayload(t: Task)
    requires OwnerPc(t.pc)
    ensures Written(t.pc, t.counter) == Makes(Weather) ==> NextOp(t).Create? && NextOp(t).payload == WeatherBytes(t)
    ensures Written(t.pc, t.counter) == Makes(Market) ==> NextOp(t).Create? && NextOp(t).payload == MarketBytes(t)
    ensures Written(t.pc, t.counter) == Makes(Forecast) ==> NextOp(t).Create? && NextOp(t).payload == ForecastBytes(t)
    ensures Written(t.pc, t.counter) == Makes(Packet) ==>
              && Sealed(t.pc) == 3 && NextOp(t).Create?
              && NextOp(t).payload ==
                 PacketDoc(Sha(WeatherBytes(t)), Sha(MarketBytes(t)), Sha(ForecastBytes(t)), t.hashes)
    ensures Written(t.pc, t.counter) == Makes(Manifest) ==> NextOp(t).Create? && NextOp(t).payload == ManifestDoc(t.hashes)
  {
    hide ArtifactPath;
  }

  /** Nobody about to write a packet has a failure, and nobody about to write a failure has a packet. */
  lemma {:induction false} WrittenExclusive(t: Task)
    ensures Written(t.pc, t.counter) == Makes(Packet) ==> !MayHold(t.pc, t.counter, Failure)
    ensures Written(t.pc, t.counter) == Makes(Failure) ==> !MayHold(t.pc, t.counter, Packet)
    ensures t.pc.FetchWeather? || t.pc.Assemble? ==>
              !MayHold(t.pc, t.counter, Packet) && Written(t.pc, t.counter) == Nothing
    ensures t.pc.Done? ==> Written(t.pc, t.counter) == Nothing
  {
  }

  // ----- the owner's step, assembled -----

  lemma {:induction false} AllowedAfter(objects: Objects, t: Task, x: Input, a: Artifact)
    requires Owner(objects, t)
    requires Has(TaskStep(objects, t, x).1, a)
    ensures var u := TaskStep(objects, t, x).1; MayHold(u.pc, u.counter, a)
  {
    hide NextOp, ArtifactPath, ClaimPath, MayHold, Written, Continue, ApplyOp, Record;
    var reply := ApplyOp(objects, t.day, NextOp(t), x.storeError).1;
    var r := Record(t, reply);
    StoredFacts(objects, t, x.storeError);
    StoredExactly(objects, t, x.storeError, a);
    FactsAlways(r, reply, x);
    AllowedAlways(r, reply, x, a);
  }

  lemma {:induction false} OutcomeAfter(objects: Objects, t: Task, x: Input)
    requires Owner(objects, t)
    ensures Outcome(TaskStep(objects, t, x).1)
  {
    hide NextOp, ArtifactPath, ClaimPath, MayHold, Written, Continue, ApplyOp, Record, OwnRecord;
    var reply := ApplyOp(objects, t.day, NextOp(t), x.storeError).1;
    var r := Record(t, reply);
    StoredFacts(objects, t, x.storeError);
    StoredExactly(objects, t, x.storeError, Packet);
    StoredExactly(objects, t, x.storeError, Failure);
    StoredExactly(objects, t, x.storeError, Manifest);
    FactsAlways(r, reply, x);
    WrittenExclusive(t);
  }

  lemma {:induction false} DocsKept(t: Task, u: Task)
    requires u.weather == t.weather && u.market == t.market && u.decision == t.decision
    ensures WeatherBytes(u) == WeatherBytes(t) && MarketBytes(u) == MarketBytes(t) && ForecastBytes(u) == ForecastBytes(t)
  {
  }

  /** Sealed components survive growth of the store. */
  lemma {:induction false} SealedSurvives(objects: Objects, after: Objects, t: Task, u: Task, k: nat)
    requires SealedComponents(objects, t, k) && u.day == t.day
    requires forall n :: n in objects ==> n in after && after[n] == objects[n]
    requires WeatherBytes(u) == WeatherBytes(t) && MarketBytes(u) == MarketBytes(t) && ForecastBytes(u) == ForecastBytes(t)
    ensures SealedComponents(after, u, k)
  {
    hide ArtifactPath, WeatherBytes, MarketBytes, ForecastBytes;
  }

  /** The step that writes component k seals one more. */
  lemma {:induction false} ComponentWritten(objects: Objects, t: Task, x: Input, k: nat)
    requires Owner(objects, t) && Sealed(t.pc) == k - 1 && 1 <= k <= 4
    requires Written(t.pc, t.counter) == Makes(Component(k))
    requires ApplyOp(objects, t.day, NextOp(t), x.storeError).1 == Stored
    ensures var (after, u) := TaskStep(objects, t, x); SealedComponents(after, u, k)
  {
    hide NextOp, ArtifactPath, ClaimPath, MayHold, Written, Continue, Sealed, ApplyOp, Record, OwnRecord,
      WeatherBytes, MarketBytes, ForecastBytes, PacketTruth, ManifestTruth, Outcome, Fetches, Reported;
    var after := ApplyOp(objects, t.day, NextOp(t), x.storeError).0;
    var r := Record(t, Stored);
    var u := Continue(r, Stored, x);
    StoredFacts(objects, t, x.storeError);
    StoredExactly(objects, t, x.storeError, Component(k));
    FactsAlways(r, Stored, x);
    WrittenExclusive(t);
    DocsKept(t, u);
    SealedSurvives(objects, after, t, u, k - 1);
    WrittenPayload(t);
  }

  lemma {:induction false} ComponentsAfter(objects: Objects, t: Task, x: Input)
    requires Owner(objects, t)
    ensures var (after, u) := TaskStep(objects, t, x); SealedComponents(after, u, Sealed(u.pc))
  {
    hide NextOp, ArtifactPath, ClaimPath, MayHold, Written, Continue, ApplyOp, Record, OwnRecord,
      WeatherBytes, MarketBytes, ForecastBytes, PacketTruth, ManifestTruth, Outcome, Fetches, Reported, Announced;
    var (after, reply) := ApplyOp(objects, t.day, NextOp(t), x.storeError);
    var r := Record(t, reply);
    var u := Continue(r, reply, x);
    StoredFacts(objects, t, x.storeError);
    FactsAlways(r, reply, x);
    if Sealed(u.pc) > Sealed(t.pc) {
      ComponentWritten(objects, t, x, Sealed(u.pc));
    } else if Sealed(u.pc) > 0 {
      DocsKept(t, u);
      SealedSurvives(objects, after, t, u, Sealed(t.pc));
    }
  }

  lemma {:induction false} PacketAfter(objects: Objects, t: Task, x: Input)
    requires Owner(objects, t)
    ensures var (after, u) := TaskStep(objects, t, x); PacketTruth(after, u)
  {
    hide NextOp, ArtifactPath, ClaimPath, MayHold, Written, Continue, Sealed, ApplyOp, Record, OwnRecord,
      WeatherBytes, MarketBytes, ForecastBytes, Outcome, Fetches, Reported, Announced, SealedMove, SealedComponents;
    var (after, reply) := ApplyOp(objects, t.day, NextOp(t), x.storeError);
    var r := Record(t, reply);
    var u := Continue(r, reply, x);
    var n := ArtifactPath(t.day, Packet);
    StoredFacts(objects, t, x.storeError);
    FactsAlways(r, reply, x);
    StoredExactly(objects, t, x.storeError, Packet);
    if n in after {
      PacketFields(t);
      DocsKept(t, u);
      SealedSurvives(objects, after, t, u, 3);
    }
  }

  /** With a packet stored or being written, three components are sealed and no field changes any more. */
  lemma {:induction false} PacketFields(t: Task)
    requires OwnerPc(t.pc)
    ensures Written(t.pc, t.counter) == Makes(Packet) ==>
              && Sealed(t.pc) == 3 && NextOp(t).Create?
              && NextOp(t).payload ==
                 PacketDoc(Sha(WeatherBytes(t)), Sha(MarketBytes(t)), Sha(ForecastBytes(t)), t.hashes)
    ensures MayHold(t.pc, t.counter, Packet) || Written(t.pc, t.counter) == Makes(Packet) ==>
              !t.pc.FetchWeather? && !t.pc.Assemble?
  {
  }

  lemma {:induction false} ManifestAfter(objects: Objects, t: Task, x: Input)
    requires Owner(objects, t)
    ensures var (after, u) := TaskStep(objects, t, x); ManifestTruth(after, u)
  {
    hide ArtifactPath, ClaimPath, MayHold, Written, Continue, Sealed, NextOp,
      PacketTruth, Outcome, Fetches;
    var (after, reply) := ApplyOp(objects, t.day, NextOp(t), x.storeError);
    var r := Record(t, reply);
    var n := ArtifactPath(t.day, Manifest);
    StoredFacts(objects, t, x.storeError);
    FactsAlways(r, reply, x);
    StoredExactly(objects, t, x.storeError, Manifest);
    WrittenExclusive(t);
    WrittenPayload(t);
    if n in objects {
      assert Continue(r, reply, x) == r && r == t;
    } else if n in after {
      WrittenIsNext(t, Manifest);
      assert r.hashes - {n} == t.hashes;
    }
  }

  lemma {:induction false} AssembleOwner(after: Objects, t: Task, r: Task, u: Task, reply: Reply)
    requires Facts(r, reply, u) && OwnRecord(after, r)
    requires Fetches(t) && r.(hashes := t.hashes) == t
    requires forall a :: Has(u, a) ==> MayHold(u.pc, u.counter, a)
    requires SealedComponents(after, u, Sealed(u.pc)) && PacketTruth(after, u) && ManifestTruth(after, u) && Outcome(u)
    ensures Owner(after, u)
  {
    hide ArtifactPath, ClaimPath, MayHold, Sealed, PacketTruth, ManifestTruth, Outcome, SealedComponents, Reported;
  }

  lemma {:induction false} OwnerStep(objects: Objects, t: Task, x: Input)
    requires Owner(objects, t)
    ensures var (after, u) := TaskStep(objects, t, x); Owner(after, u)
  {
    var (after, reply) := ApplyOp(objects, t.day, NextOp(t), x.storeError);
    var r := Record(t, reply);
    var u := TaskStep(objects, t, x).1;
    StoredFacts(objects, t, x.storeError);
    FactsAlways(r, reply, x);
    ComponentsAfter(objects, t, x);
    PacketAfter(objects, t, x);
    ManifestAfter(objects, t, x);
    OutcomeAfter(objects, t, x);
    forall a | Has(u, a) ensures MayHold(u.pc, u.counter, a) {
      AllowedAfter(objects, t, x, a);
    }
    AssembleOwner(after, t, r, u, reply);
    hide NextOp, ArtifactPath, ClaimPath, MayHold, Written, Continue, Sealed, ApplyOp, Record, OwnRecord,
      PacketTruth, ManifestTruth, Outcome, SealedComponents, Fetches, Facts;
  }

  // ----- one step of a task without the claim -----

  lemma {:induction false} VisitorStep(objects: Objects, t: Task, x: Input)
    requires Visitor(t) && Unclaimed(objects, t.day)
    ensures var (after, u) := TaskStep(objects, t, x);
            || (after == objects && Visitor(u))
            || (ClaimPath(t.day) !in objects && Owner(after, u))
  {
    hide ArtifactPath, ClaimPath, MayHold, Sealed, Owner, ContinueAcquiring, ContinueSealing, ContinueDelayed,
      ProbedArtifact;
    if t.pc.CreateClaim? {
      ClaimStep(objects, t, x);
    } else if t.pc.CheckExisting? {
      ArtifactAccepted(t.day, ProbedArtifact(t.pc.i));
    }
  }

  lemma {:induction false} ClaimStep(objects: Objects, t: Task, x: Input)
    requires Visitor(t) && Unclaimed(objects, t.day) && t.pc.CreateClaim?
    ensures var (after, u) := TaskStep(objects, t, x);
            || (after == objects && Visitor(u))
            || (ClaimPath(t.day) !in objects && Owner(after, u))
  {
    hide ArtifactPath, ClaimPath, Directory, Owner;
    ArtifactAccepted(t.day, Start);
    var (after, reply) := ApplyOp(objects, t.day, NextOp(t), x.storeError);
    assert NextOp(t) == Create(ClaimPath(t.day), ClaimDoc(t.pc.late, t.pc.at));
    hide NextOp, ContinueAcquiring, ContinueSealing, ContinueDelayed;
    if reply == Stored {
      ClaimStored(objects, t, x);
    }
  }

  lemma {:induction false} ClaimStored(objects: Objects, t: Task, x: Input)
    requires Visitor(t) && Unclaimed(objects, t.day) && t.pc.CreateClaim?
    requires ClaimPath(t.day) !in objects && Accepts(t.day, ClaimPath(t.day)) && !x.storeError
    ensures var (after, u) := TaskStep(objects, t, x); Owner(after, u)
  {
    var (after, u) := TaskStep(objects, t, x);
    var claim := ClaimPath(t.day);
    forall a ensures ArtifactPath(t.day, a) != claim && Accepts(t.day, ArtifactPath(t.day, a)) {
      ArtifactAccepted(t.day, a);
    }
    assert NextOp(t) == Create(claim, ClaimDoc(t.pc.late, t.pc.at));
    assert after == objects[claim := ClaimDoc(t.pc.late, t.pc.at)];
    assert u.hashes == map[claim := Sha(ClaimDoc(t.pc.late, t.pc.at))];
    assert u.pc.CreateStart? || u.pc.LateFailure?;
    assert forall a :: !Has(u, a);
    assert forall a :: ArtifactPath(t.day, a) !in after;
    hide ArtifactPath, ClaimPath, Directory, NextOp, MayHold, Continue;
  }

  // ----- whole runs -----

  lemma {:induction false} SameNames(a: Objects, b: Objects, p: Day)
    requires Restrict(a, p) == Restrict(b, p)
    ensures forall n :: Accepts(p, n) ==> (n in a <==> n in b) && (n in a ==> a[n] == b[n])
    ensures forall c :: Accepts(p, ArtifactPath(p, c))
    ensures Accepts(p, ClaimPath(p))
  {
    hide Accepts, ArtifactPath, ClaimPath;
    ArtifactAccepted(p, Start);
    forall n | Accepts(p, n) ensures (n in a <==> n in b) && (n in a ==> a[n] == b[n]) {
      RestrictAgrees(a, b, p, n);
    }
    forall c ensures Accepts(p, ArtifactPath(p, c)) && Accepts(p, ClaimPath(p)) {
      ArtifactAccepted(p, c);
    }
  }

  lemma {:induction false} RecordUnaffected(a: Objects, b: Objects, t: Task)
    requires OwnRecord(a, t) && Restrict(a, t.day) == Restrict(b, t.day)
    ensures OwnRecord(b, t)
  {
    hide Accepts, ArtifactPath, ClaimPath, Restrict;
    SameNames(a, b, t.day);
  }

  lemma {:induction false} OwnerUnaffected(a: Objects, b: Objects, t: Task)
    requires Owner(a, t) && Restrict(a, t.day) == Restrict(b, t.day)
    ensures Owner(b, t)
  {
    hide ArtifactPath, ClaimPath, Accepts, MayHold, Sealed, Restrict, OwnRecord, Outcome, Fetches, Reported,
      WeatherBytes, MarketBytes, ForecastBytes;
    SameNames(a, b, t.day);
    RecordUnaffected(a, b, t);
  }

  lemma {:induction false} InvariantStep(w: World, e: Event, p: Day)
    requires EvidenceInvariant(w, p)
    ensures EvidenceInvariant(Step(w, e), p)
  {
    hide ArtifactPath, ClaimPath, Directory, MayHold, Sealed, NextOp, Continue, Owner, ApplyOp;
    if e.task < |w.tasks| {
      var t := w.tasks[e.task];
      var v := Step(w, e);
      var reply := ApplyOp(w.objects, t.day, NextOp(t), e.input.storeError).1;
      DaysFixed(t, reply, e.input);
      if t.day != p {
        OtherDayStep(w, e, p);
      } else if Visitor(t) {
        VisitorStep(w.objects, t, e.input);
        if v.objects == w.objects && Visitor(v.tasks[e.task]) {
          OwnerUndisturbed(w, e, p);
        } else {
          ClaimTaken(w, e, p);
          OwnerNonempty(v.objects, v.tasks[e.task]);
        }
      } else {
        OwnerStep(w.objects, t, e.input);
        OwnerNonempty(w.objects, t);
        OwnerNonempty(v.objects, v.tasks[e.task]);
        forall i | 0 <= i < |w.tasks| && w.tasks[i].day == p && i != e.task ensures Visitor(w.tasks[i]) {
          if Owner(w.objects, w.tasks[i]) {
            OwnerNonempty(w.objects, w.tasks[i]);
          }
        }
      }
    }
  }

  lemma {:induction false} OwnerUndisturbed(w: World, e: Event, p: Day)
    requires EvidenceInvariant(w, p) && e.task < |w.tasks| && w.tasks[e.task].hashes == map[]
    ensures ClaimPath(p) in w.objects ==> HasOwner(Step(w, e), p)
  {
    hide ArtifactPath, ClaimPath, Directory, MayHold, Sealed, NextOp, Continue, Owner, ApplyOp;
    if ClaimPath(p) in w.objects {
      var i :| 0 <= i < |w.tasks| && w.tasks[i].day == p && w.tasks[i].hashes != map[];
      assert Step(w, e).tasks[i] == w.tasks[i];
    }
  }

  lemma {:induction false} OwnerNonempty(objects: Objects, t: Task)
    requires Owner(objects, t)
    ensures t.hashes != map[] && ClaimPath(t.day) in objects && !Visitor(t)
  {
  }

  lemma {:induction false} OtherDayStep(w: World, e: Event, p: Day)
    requires EvidenceInvariant(w, p) && e.task < |w.tasks| && w.tasks[e.task].day != p
    ensures EvidenceInvariant(Step(w, e), p)
  {
    hide Accepts, ArtifactPath, ClaimPath, Directory, MayHold, Sealed, NextOp, Continue, Owner, ApplyOp, Visitor;
    var t, v := w.tasks[e.task], Step(w, e);
    DaysFixed(t, ApplyOp(w.objects, t.day, NextOp(t), e.input.storeError).1, e.input);
    OpIsLocal(w.objects, w.objects, p, t.day, NextOp(t), e.input.storeError);
    forall i | 0 <= i < |w.tasks| && w.tasks[i].day == p && Owner(w.objects, w.tasks[i])
      ensures Owner(v.objects, v.tasks[i]) {
      OwnerUnaffected(w.objects, v.objects, w.tasks[i]);
    }
    forall n | Accepts(p, n) ensures n in w.objects <==> n in v.objects {
      RestrictAgrees(w.objects, v.objects, p, n);
    }
    ArtifactAccepted(p, Start);
    if ClaimPath(p) in v.objects {
      var i :| 0 <= i < |w.tasks| && w.tasks[i].day == p && w.tasks[i].hashes != map[];
      assert v.tasks[i] == w.tasks[i];
    }
  }

  /** When a visitor turns owner there was no owner before. */
  lemma {:induction false} ClaimTaken(w: World, e: Event, p: Day)
    requires EvidenceInvariant(w, p) && e.task < |w.tasks| && w.tasks[e.task].day == p
    requires ClaimPath(p) !in w.objects
    ensures forall i :: 0 <= i < |w.tasks| && w.tasks[i].day == p ==> Visitor(w.tasks[i])
  {
  }

  lemma {:induction false} InvariantRun(w: World, schedule: seq<Event>, p: Day)
    requires EvidenceInvariant(w, p)
    ensures EvidenceInvariant(Run(w, schedule), p)
    decreases |schedule|
  {
    hide EvidenceInvariant, Step;
    if schedule != [] {
      InvariantStep(w, schedule[0], p);
      InvariantRun(Step(w, schedule[0]), schedule[1..], p);
    }
  }

  /** An empty store and one fresh task per entry of `days`. */
  function Beginning(days: seq<Day>): World {
    World(map[], seq(|days|, i requires 0 <= i < |days| => Fresh(days[i])))
  }

  /** The evidence invariant holds for every city and date at every moment of every run. */
  lemma {:induction false} EvidenceAlways(days: seq<Day>, schedule: seq<Event>, p: Day)
    ensures EvidenceInvariant(Run(Beginning(days), schedule), p)
  {
    InvariantRun(Beginning(days), schedule, p);
    hide Run, Owner;
  }

  // ----- what the invariant says -----

  /** Only one task per city and date ever fetches or writes, and it fetches the weather at most once. */
  lemma {:induction false} SingleAcquisition(days: seq<Day>, schedule: seq<Event>, i: nat, j: nat)
    requires var w := Run(Beginning(days), schedule);
             i < |w.tasks| && j < |w.tasks| && w.tasks[i].day == w.tasks[j].day
    ensures var w := Run(Beginning(days), schedule);
            && w.tasks[i].weatherFetches <= 1
            && (w.tasks[i].weatherFetches + w.tasks[i].marketFetches > 0 ==>
                  w.tasks[i].hashes != map[] && !w.tasks[i].late)
            && (w.tasks[i].hashes != map[] && w.tasks[j].hashes != map[] ==> i == j)
  {
    hide Run, ArtifactPath, ClaimPath, Directory, MayHold, Sealed;
    var w := Run(Beginning(days), schedule);
    EvidenceAlways(days, schedule, w.tasks[i].day);
    if !Visitor(w.tasks[i]) {
      OwnerNonempty(w.objects, w.tasks[i]);
    }
  }

  /** At every moment, the next create of a task that owns the claim goes to an unused name. */
  lemma {:induction false} CreatesNeverCollide(days: seq<Day>, schedule: seq<Event>, i: nat)
    requires var w := Run(Beginning(days), schedule);
             i < |w.tasks| && w.tasks[i].hashes != map[] && NextOp(w.tasks[i]).Create?
    ensures var w := Run(Beginning(days), schedule); NextOp(w.tasks[i]).name !in w.objects
  {
    hide Run, ArtifactPath, ClaimPath, Directory, MayHold, Sealed, Written;
    var w := Run(Beginning(days), schedule);
    var t := w.tasks[i];
    EvidenceAlways(days, schedule, t.day);
    assert Owner(w.objects, t);
    WrittenIsNext(t, Start);
    var a := Written(t.pc, t.counter).artifact;
    OwnerNeverCollides(w.objects, t, a);
  }

  /**
   What the stored objects of one city and date say about each other: packet and failure exclude each
   other; a packet comes with the three components whose hashes it states; a manifest lists, with
   their hashes, all other objects of the city and date and nothing else.
  */
  lemma {:induction false} StoredEvidence(days: seq<Day>, schedule: seq<Event>, p: Day)
    ensures var o := Run(Beginning(days), schedule).objects;
            var packet, failure, manifest :=
              ArtifactPath(p, Packet), ArtifactPath(p, Failure), ArtifactPath(p, Manifest);
            && !(packet in o && failure in o)
            && (packet in o ==>
                  && o[packet].PacketDoc?
                  && (exists d :: Holds(o, p, Weather, d) && o[packet].weather == Sha(d))
                  && (exists d :: Holds(o, p, Market, d) && o[packet].market == Sha(d))
                  && (exists d :: Holds(o, p, Forecast, d) && o[packet].forecast == Sha(d)))
            && (manifest in o ==>
                  && o[manifest].ManifestDoc?
                  && (forall n :: n in o[manifest].hashes <==> n in o && Accepts(p, n) && n != manifest)
                  && (forall n :: n in o[manifest].hashes ==> o[manifest].hashes[n] == Sha(o[n])))
  {
    hide Run, ArtifactPath, ClaimPath, Directory, MayHold, Sealed;
    var w := Run(Beginning(days), schedule);
    var o := w.objects;
    EvidenceAlways(days, schedule, p);
    ArtifactAccepted(p, Packet);
    ArtifactAccepted(p, Failure);
    ArtifactAccepted(p, Manifest);
    if n :| n in o && Accepts(p, n) {
      var i :| 0 <= i < |w.tasks| && w.tasks[i].day == p && w.tasks[i].hashes != map[];
      var t := w.tasks[i];
      assert Holds(o, p, Weather, WeatherBytes(t)) || ArtifactPath(p, Packet) !in o;
      assert Holds(o, p, Market, MarketBytes(t)) || ArtifactPath(p, Packet) !in o;
      assert Holds(o, p, Forecast, ForecastBytes(t)) || ArtifactPath(p, Packet) !in o;
    }
  }

  /** What a returned status says about the store. */
  lemma {:induction false} StatusTruth(days: seq<Day>, schedule: seq<Event>, i: nat)
    requires var w := Run(Beginning(days), schedule); i < |w.tasks| && w.tasks[i].pc.Done?
    ensures var w := Run(Beginning(days), schedule);
            var t := w.tasks[i];
            && (SealedStatus(t.pc.status) ==> ArtifactPath(t.day, Packet) in w.objects)
            && (FailureStatus(t.pc.status) ==> ArtifactPath(t.day, Failure) in w.objects)
            && (t.pc.status != DuplicateClaim ==> ArtifactPath(t.day, Manifest) in w.objects)
            && (t.pc.status == DuplicateClaim ==> t.hashes == map[] && t.weatherFetches + t.marketFetches == 0)
  {
    hide Run, ArtifactPath, ClaimPath, Directory, MayHold, PacketTruth, ManifestTruth, SealedComponents, NextOp, Continue;
    var w := Run(Beginning(days), schedule);
    EvidenceAlways(days, schedule, w.tasks[i].day);
  }

  /** Stored objects are immutable over every run. */
  lemma {:induction false} ObjectsPersist(w: World, schedule: seq<Event>, n: string)
    requires n in w.objects
    ensures n in Run(w, schedule).objects && Run(w, schedule).objects[n] == w.objects[n]
    decreases |schedule|
  {
    if schedule != [] {
      var e := schedule[0];
      assert n in Step(w, e).objects && Step(w, e).objects[n] == w.objects[n] by {
        hide NextOp, Continue, Accepts;
      }
      ObjectsPersist(Step(w, e), schedule[1..], n);
    }
    hide Step;
  }
}
