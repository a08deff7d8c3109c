/**
 The one-shot city collector as a protocol: any number of `run_city` tasks interleave over one
 create-only object store. A step is one store access together with the local computation that
 follows it. Clocks, fetches, validation verdicts and store errors are adversarial inputs; a
 crashed task is one that is never scheduled again.
*/
module Collector {
  import opened CollectorKeys

  type Day = p: CityDay | Approved(p) witness CityDay("boston", 3)

  /** SHA-256 as an injective constructor. */
  datatype Hash = Sha(payload: Payload)

  datatype Payload =
    | ClaimDoc(late: bool, observedAt: int)
    | StartDoc(at: int)
    | RawDoc(content: int)
    | WeatherDoc(content: int)
    | MarketDoc(content: int)
    | ForecastDoc(weather: Hash, market: Hash, decision: int)
    | PacketDoc(weather: Hash, market: Hash, forecast: Hash, raw: map<string, Hash>)
    | FailureDoc(status: Status, stage: Stage, created: set<string>)
    | DelayedDoc(content: int)
    | DelayedFailureDoc(status: Status)
    | LogDoc(status: Status, gets: nat)
    | ManifestDoc(hashes: map<string, Hash>)

  datatype Status =
    | DuplicateClaim
    | MissedSchedule
    | DataNotReady
    | Failed
    | Captured
    | DelayedSnapshotMissed
    | DelayedSnapshotFailed

  datatype Stage = GateStage | StartStage | CredentialStage | WeatherStage | MarketStage | SealStage

  /** What the leading part of an exception's code says. */
  datatype ErrorCode = DataNotReadyCode | MissedScheduleCode | DelayedMissedCode | OtherCode

  datatype Fault = NoFault | Fault(code: ErrorCode)

  /** Everything the environment decides at one step. */
  datatype Input = Input(now: int, later: int, fault: Fault, storeError: bool, content: int)

  datatype Pc =
    | Gate
    | CheckExisting(late: bool, at: int, i: nat)
    | CreateClaim(late: bool, at: int)
    | LateFailure
    | LateManifest
    | CreateStart(at: int)
    | OpenWeather
    | FetchWeather
    | WriteRawWeather
    | CheckWeather
    | MarketOpen
    | MarketGet(k: nat)
    | MarketWrite(k: nat, content: int)
    | Assemble
    | WriteWeather
    | WriteMarket
    | WriteForecast
    | WritePacket
    | WriteFailure(status: Status, stage: Stage)
    | FailureManifest(status: Status)
    | DelayedGet(k: nat)
    | DelayedWrite(k: nat, content: int)
    | DelayedFinish
    | WriteDelayedBooks(content: int)
    | WriteDelayedFailure(status: Status)
    | WriteLog(status: Status)
    | WriteManifest(status: Status)
    | Done(status: Status)
    | Raised

  /** Local state of one `run_city` call; `hashes` is its CityStore's, `counter` its raw-evidence counter. */
  datatype Task = Task(
    day: Day,
    pc: Pc,
    hashes: map<string, Hash>,
    counter: nat,
    weatherFetches: nat,
    marketFetches: nat,
    weather: int,
    market: int,
    decision: int,
    late: bool)

  function Fresh(day: Day): Task {
    Task(day, Gate, map[], 0, 0, 0, 0, 0, 0, false)
  }

  type Objects = map<string, Payload>

  datatype World = World(objects: Objects, tasks: seq<Task>)

  // ----- clock -----

  const SECOND := 1_000_000
  const DAY_LENGTH := 86_400 * SECOND

  /** Instants are microseconds; day d of October 2026 is [d * DAY_LENGTH, (d + 1) * DAY_LENGTH). */
  function Decision(day: nat): int {
    day * DAY_LENGTH + 9 * 3600 * SECOND
  }

  function Close(day: nat): int {
    Decision(day) + 300 * SECOND
  }

  datatype Timing = Timely | Late | Refused

  /** `gate`, with its three refusals folded into one. */
  function GateVerdict(day: nat, now: int): Timing {
    if now / DAY_LENGTH != day || now < Decision(day) then Refused
    else if now >= Close(day) then Late
    else Timely
  }

  // ----- store -----

  datatype Op = NoOp | Probe(name: string) | Create(name: string, payload: Payload)

  datatype Reply = Silence | Present(found: bool) | Stored | AlreadyExists | StoreError | CrossCity

  /** One access through `CityStore` to a create-only store whose create stores or raises without effect. */
  function ApplyOp(objects: Objects, day: Day, op: Op, storeError: bool): (Objects, Reply) {
    match op
    case NoOp => (objects, Silence)
    case Probe(name) =>
      if !Accepts(day, name) then (objects, CrossCity)
      else if storeError then (objects, StoreError)
      else (objects, Present(name in objects))
    case Create(name, payload) =>
      if !Accepts(day, name) then (objects, CrossCity)
      else if storeError then (objects, StoreError)
      else if name in objects then (objects, AlreadyExists)
      else (objects[name := payload], Stored)
  }

  function WeatherBytes(t: Task): Payload { WeatherDoc(t.weather) }

  function MarketBytes(t: Task): Payload { MarketDoc(t.market) }

  function ForecastBytes(t: Task): Payload {
    ForecastDoc(Sha(WeatherBytes(t)), Sha(MarketBytes(t)), t.decision)
  }

  /** The five artifacts `acquire_claim` looks for, in its order. */
  function ProbedArtifact(i: nat): Artifact {
    if i == 0 then Packet else if i == 1 then Forecast else if i == 2 then Weather
    else if i == 3 then Market else Failure
  }

  function Put(t: Task, a: Artifact, payload: Payload): Op {
    Create(ArtifactPath(t.day, a), payload)
  }

  /** The store access a task performs next. */
  function NextOp(t: Task): Op {
    match t.pc
    case CheckExisting(_, _, i) => Probe(ArtifactPath(t.day, ProbedArtifact(i)))
    case CreateClaim(late, at) => Create(ClaimPath(t.day), ClaimDoc(late, at))
    case LateFailure => Put(t, Failure, FailureDoc(MissedSchedule, GateStage, {}))
    case LateManifest => Put(t, Manifest, ManifestDoc(t.hashes))
    case CreateStart(at) => Put(t, Start, StartDoc(at))
    case WriteRawWeather => Put(t, RawWeather, RawDoc(t.weather))
    case MarketWrite(_, content) => Put(t, RawKalshi(t.counter), RawDoc(content))
    case WriteWeather => Put(t, Weather, WeatherBytes(t))
    case WriteMarket => Put(t, Market, MarketBytes(t))
    case WriteForecast => Put(t, Forecast, ForecastBytes(t))
    case WritePacket =>
      Put(t, Packet, PacketDoc(Sha(WeatherBytes(t)), Sha(MarketBytes(t)), Sha(ForecastBytes(t)), t.hashes))
    case WriteFailure(status, stage) => Put(t, Failure, FailureDoc(status, stage, t.hashes.Keys))
    case FailureManifest(_) => Put(t, Manifest, ManifestDoc(t.hashes))
    case DelayedWrite(_, content) => Put(t, RawKalshi(t.counter), RawDoc(content))
    case WriteDelayedBooks(content) => Put(t, DelayedBooks, DelayedDoc(content))
    case WriteDelayedFailure(status) => Put(t, DelayedFailure, DelayedFailureDoc(status))
    case WriteLog(status) => Put(t, StructuredLog, LogDoc(status, t.counter))
    case WriteManifest(_) => Put(t, Manifest, ManifestDoc(t.hashes))
    case _ => NoOp
  }

  // ----- local computation -----

  function StatusFor(stage: Stage, code: ErrorCode): Status {
    if stage == WeatherStage && code == DataNotReadyCode then DataNotReady
    else if code == MissedScheduleCode then MissedSchedule
    else Failed
  }

  /** The `except Exception` branch around acquisition and sealing. */
  function Fail(t: Task, stage: Stage, code: ErrorCode): Task {
    t.(pc := WriteFailure(StatusFor(stage, code), stage))
  }

  /** The `except Exception` branch around the delayed books. */
  function FailDelayed(t: Task, code: ErrorCode): Task {
    t.(pc := WriteDelayedFailure(if code == DelayedMissedCode then DelayedSnapshotMissed else DelayedSnapshotFailed))
  }

  const MARKET_GETS: nat := 14
  const SIBLINGS: nat := 6

  /** `CityStore.create` records the hash only after the inner create returned. */
  function Record(t: Task, reply: Reply): Task {
    if reply == Stored && NextOp(t).Create?
    then t.(hashes := t.hashes[NextOp(t).name := Sha(NextOp(t).payload)])
    else t
  }

  function Proceed(t: Task, reply: Reply, next: Pc): Task {
    t.(pc := if reply == Stored then next else Raised)
  }

  predicate AcquiringPhase(pc: Pc) {
    || pc.CreateStart? || pc.OpenWeather? || pc.FetchWeather? || pc.WriteRawWeather? || pc.CheckWeather? ||
    pc.MarketOpen? || pc.MarketGet? || pc.MarketWrite? || pc.Assemble?
  }

  predicate SealingPhase(pc: Pc) {
    || pc.WriteWeather? || pc.WriteMarket? || pc.WriteForecast? || pc.WritePacket? || pc.WriteFailure? ||
    pc.FailureManifest?
  }

  predicate DelayedPhase(pc: Pc) {
    || pc.DelayedGet? || pc.DelayedWrite? || pc.DelayedFinish? || pc.WriteDelayedBooks? ||
    pc.WriteDelayedFailure? || pc.WriteLog? || pc.WriteManifest?
  }

  /** From the gate to the claim, and a late claim's failure record. */
  function ContinueClaiming(t: Task, reply: Reply, x: Input): Task {
    match t.pc
    case Gate =>
      var verdict := GateVerdict(t.day.day, x.now);
      t.(pc := if verdict == Refused then Raised else CheckExisting(verdict == Late, x.now, 0))
    case CheckExisting(late, at, i) =>
      t.(pc := match reply
               case Present(found) =>
                 if found then Done(DuplicateClaim)
                 else if i < 4 then CheckExisting(late, at, i + 1)
                 else CreateClaim(late, at)
               case _ => Raised)
    case CreateClaim(late, at) =>
      t.(late := late,
         pc := match reply
               case Stored => if late then LateFailure else CreateStart(at)
               case AlreadyExists => Done(DuplicateClaim)
               case _ => Raised)
    case LateFailure => Proceed(t, reply, LateManifest)
    case LateManifest => Proceed(t, reply, Done(MissedSchedule))
    case _ => t
  }

  /** Acquisition and validation of weather and market. */
  function ContinueAcquiring(t: Task, reply: Reply, x: Input): Task {
    match t.pc
    case CreateStart(_) =>
      if reply != Stored then Fail(t, StartStage, OtherCode)
      else if x.now >= Close(t.day.day) then Fail(t, StartStage, MissedScheduleCode)
      else t.(pc := OpenWeather)
    case OpenWeather =>
      if x.fault.Fault? then Fail(t, CredentialStage, x.fault.code)
      else if x.later >= Close(t.day.day) then Fail(t, CredentialStage, MissedScheduleCode)
      else t.(pc := FetchWeather)
    case FetchWeather =>
      var u := t.(weatherFetches := t.weatherFetches + 1);
      if x.fault.Fault? then Fail(u, WeatherStage, x.fault.code)
      else u.(weather := x.content, pc := WriteRawWeather)
    case WriteRawWeather =>
      if reply != Stored then Fail(t, WeatherStage, OtherCode) else t.(pc := CheckWeather)
    case CheckWeather =>
      if x.fault.Fault? then Fail(t, WeatherStage, x.fault.code) else t.(pc := MarketOpen)
    case MarketOpen =>
      if x.now >= Close(t.day.day) then Fail(t, MarketStage, OtherCode) else t.(pc := MarketGet(0))
    case MarketGet(k) =>
      var u := t.(marketFetches := t.marketFetches + 1);
      if x.fault.Fault? then Fail(u, MarketStage, x.fault.code)
      else u.(counter := t.counter + 1, pc := MarketWrite(k, x.content))
    case MarketWrite(k, _) =>
      if reply != Stored then Fail(t, MarketStage, OtherCode)
      else if x.fault.Fault? then Fail(t, MarketStage, x.fault.code)
      else t.(pc := if k + 1 < MARKET_GETS then MarketGet(k + 1) else Assemble)
    case Assemble =>
      if x.fault.Fault? then Fail(t, MarketStage, x.fault.code)
      else t.(market := x.content, decision := x.now, pc := WriteWeather)
    case _ => t
  }

  /** Sealing the packet, or recording why there is none. */
  function ContinueSealing(t: Task, reply: Reply, x: Input): Task {
    match t.pc
    case WriteWeather => if reply != Stored then Fail(t, SealStage, OtherCode) else t.(pc := WriteMarket)
    case WriteMarket => if reply != Stored then Fail(t, SealStage, OtherCode) else t.(pc := WriteForecast)
    case WriteForecast => if reply != Stored then Fail(t, SealStage, OtherCode) else t.(pc := WritePacket)
    case WritePacket => if reply != Stored then Fail(t, SealStage, OtherCode) else t.(pc := DelayedGet(0))
    case WriteFailure(status, _) => Proceed(t, reply, FailureManifest(status))
    case FailureManifest(status) => Proceed(t, reply, Done(status))
    case _ => t
  }

  /** The ancillary delayed books, log and manifest. */
  function ContinueDelayed(t: Task, reply: Reply, x: Input): Task {
    match t.pc
    case DelayedGet(k) =>
      if x.now > t.decision + 330 * SECOND then FailDelayed(t, DelayedMissedCode)
      else
        var u := t.(marketFetches := t.marketFetches + 1);
        if x.fault.Fault? then FailDelayed(u, x.fault.code)
        else u.(counter := t.counter + 1, pc := DelayedWrite(k, x.content))
    case DelayedWrite(k, _) =>
      if reply != Stored then FailDelayed(t, OtherCode)
      else if x.fault.Fault? then FailDelayed(t, x.fault.code)
      else t.(pc := if k + 1 < SIBLINGS then DelayedGet(k + 1) else DelayedFinish)
    case DelayedFinish =>
      if x.now > t.decision + 330 * SECOND then FailDelayed(t, DelayedMissedCode)
      else t.(pc := WriteDelayedBooks(x.content))
    case WriteDelayedBooks(_) =>
      if reply != Stored then FailDelayed(t, OtherCode) else t.(pc := WriteLog(Captured))
    case WriteDelayedFailure(status) => Proceed(t, reply, WriteLog(status))
    case WriteLog(status) => Proceed(t, reply, WriteManifest(status))
    case WriteManifest(status) => Proceed(t, reply, Done(status))
    case _ => t
  }

  /** What a task does with the reply to its store access, up to its next access. */
  function Continue(t: Task, reply: Reply, x: Input): Task {
    if AcquiringPhase(t.pc) then ContinueAcquiring(t, reply, x)
    else if SealingPhase(t.pc) then ContinueSealing(t, reply, x)
    else if DelayedPhase(t.pc) then ContinueDelayed(t, reply, x)
    else ContinueClaiming(t, reply, x)
  }

  function TaskStep(objects: Objects, t: Task, x: Input): (Objects, Task) {
    var (after, reply) := ApplyOp(objects, t.day, NextOp(t), x.storeError);
    (after, Continue(Record(t, reply), reply, x))
  }

  // ----- whole runs -----

  datatype Event = Event(task: nat, input: Input)

  function Step(w: World, e: Event): World {
    if e.task >= |w.tasks| then w
    else
      var (objects, t) := TaskStep(w.objects, w.tasks[e.task], e.input);
      World(objects, w.tasks[e.task := t])
  }

  function Run(w: World, schedule: seq<Event>): World
    decreases |schedule|
  {
    if schedule == [] then w else Run(Step(w, schedule[0]), schedule[1..])
  }

  // ----- isolation -----

  /** The part of the store that the pair's CityStore can address. */
  function Restrict(objects: Objects, p: Day): Objects {
    map n | n in objects && Accepts(p, n) :: objects[n]
  }

  /** Two worlds look the same from one city and date. */
  ghost predicate SameFor(v: World, w: World, p: Day) {
    && Restrict(v.objects, p) == Restrict(w.objects, p)
    && |v.tasks| == |w.tasks|
    && (forall i :: 0 <= i < |v.tasks| ==> v.tasks[i].day == w.tasks[i].day)
    && (forall i :: 0 <= i < |v.tasks| && v.tasks[i].day == p ==> v.tasks[i] == w.tasks[i])
  }

  /** The days of all tasks; no step changes them. */
  function Days(w: World): seq<Day> {
    seq(|w.tasks|, i requires 0 <= i < |w.tasks| => w.tasks[i].day)
  }

  predicate Own(days: seq<Day>, e: Event, p: Day) {
    e.task < |days| && days[e.task] == p
  }

  /** The events of one city and date's own tasks. */
  function OnlyFor(days: seq<Day>, schedule: seq<Event>, p: Day): seq<Event> {
    if schedule == [] then []
    else (if Own(days, schedule[0], p) then [schedule[0]] else []) + OnlyFor(days, schedule[1..], p)
  }

  lemma {:induction false} RestrictAgrees(a: Objects, b: Objects, p: Day, n: string)
    requires Restrict(a, p) == Restrict(b, p) && Accepts(p, n)
    ensures n in a <==> n in b
    ensures n in a ==> a[n] == b[n]
  {
    assert n in Restrict(a, p) <==> n in a;
    assert n in Restrict(b, p) <==> n in b;
  }

  /** An access by another pair's task is invisible; an access by the pair's own task sees only its part. */
  lemma {:induction false} OpIsLocal(a: Objects, b: Objects, p: Day, q: Day, op: Op, storeError: bool)
    ensures q != p ==> Restrict(ApplyOp(a, q, op, storeError).0, p) == Restrict(a, p)
    ensures Restrict(a, p) == Restrict(b, p) ==>
              && ApplyOp(a, p, op, storeError).1 == ApplyOp(b, p, op, storeError).1
              && Restrict(ApplyOp(a, p, op, storeError).0, p) == Restrict(ApplyOp(b, p, op, storeError).0, p)
  {
    if op.Create? && Accepts(q, op.name) && q != p && Accepts(p, op.name) {
      KeysDisjoint(p, q, op.name);
    }
    if Restrict(a, p) == Restrict(b, p) && !op.NoOp? && Accepts(p, op.name) {
      RestrictAgrees(a, b, p, op.name);
      if op.Create? {
        var c, d := a[op.name := op.payload], b[op.name := op.payload];
        assert Restrict(c, p) == Restrict(a, p)[op.name := op.payload];
        assert Restrict(d, p) == Restrict(b, p)[op.name := op.payload];
      }
    }
  }

  lemma {:induction false} DaysFixed(t: Task, reply: Reply, x: Input)
    ensures Continue(Record(t, reply), reply, x).day == t.day
  {
  }

  lemma {:induction false} StepIsLocal(v: World, w: World, e: Event, p: Day)
    requires SameFor(v, w, p)
    ensures SameFor(Step(v, e), if Own(Days(w), e, p) then Step(w, e) else w, p)
    ensures Days(Step(v, e)) == Days(v)
  {
    if e.task < |v.tasks| {
      var t, q := v.tasks[e.task], v.tasks[e.task].day;
      OpIsLocal(v.objects, w.objects, p, q, NextOp(t), e.input.storeError);
      DaysFixed(t, ApplyOp(v.objects, q, NextOp(t), e.input.storeError).1, e.input);
    }
  }

  lemma {:induction false} RunStep(w: World, e: Event, rest: seq<Event>)
    ensures Run(w, [e] + rest) == Run(Step(w, e), rest)
  {
  }

  lemma {:induction false} IsolationFrom(v: World, w: World, days: seq<Day>, schedule: seq<Event>, p: Day)
    requires SameFor(v, w, p) && days == Days(v) == Days(w)
    ensures SameFor(Run(v, schedule), Run(w, OnlyFor(days, schedule, p)), p)
    decreases |schedule|
  {
    if schedule != [] {
      var e, rest := schedule[0], schedule[1..];
      StepIsLocal(v, w, e, p);
      StepIsLocal(w, w, e, p);
      var next := if Own(days, e, p) then Step(w, e) else w;
      IsolationFrom(Step(v, e), next, days, rest, p);
      RunStep(w, e, OnlyFor(days, rest, p));
      assert [] + OnlyFor(days, rest, p) == OnlyFor(days, rest, p);
    }
  }

  /**
   City isolation: in any interleaving of any number of tasks, one city and date's stored objects
   and its tasks' local states (statuses included) are those of the run in which only its own tasks
   take steps.
  */
  lemma {:induction false} Isolation(w: World, schedule: seq<Event>, p: Day)
    ensures SameFor(Run(w, schedule), Run(w, OnlyFor(Days(w), schedule, p)), p)
  {
    IsolationFrom(w, w, Days(w), schedule, p);
  }
}
