/**
 The course of the task that holds the claim, read off from its own inputs alone: which step meets which problem,
 where the task stands after any number of inputs, and that the protocol takes it there.
*/
module CollectorCourse {
  import opened CollectorKeys
  import opened Collector
  import opened CollectorEvidence

  // ----- the steps of an attempt and what can go wrong at each -----

  datatype Problem = Problem(stage: Stage, code: ErrorCode)

  datatype Option<+T> = None | Some(value: T)

  // From the start record (0) to the packet (38).
  const STEPS: nat := 39
  const ASSEMBLY: nat := 34

  function Opens(day: nat): int {
    day * 86_400_000_000 + 32_400_000_000
  }

  /** Five minutes later. */
  function Closes(day: nat): int {
    Opens(day) + 300_000_000
  }

  function Faulty(stage: Stage, x: Input): Option<Problem> {
    if x.fault.Fault? then Some(Problem(stage, x.fault.code)) else None
  }

  function Unstored(stage: Stage, x: Input): Option<Problem> {
    if x.storeError then Some(Problem(stage, OtherCode)) else None
  }

  function Late(stage: Stage, code: ErrorCode, reading: int, day: nat): Option<Problem> {
    if reading >= Closes(day) then Some(Problem(stage, code)) else None
  }

  function Either(a: Option<Problem>, b: Option<Problem>): Option<Problem> {
    if a.Some? then a else b
  }

  /** The problem, if any, that step `n` meets in its input. */
  function ProblemAt(day: nat, n: nat, x: Input): Option<Problem> {
    if n == 0 then Either(Unstored(StartStage, x), Late(StartStage, MissedScheduleCode, x.now, day))
    else if n == 1 then Either(Faulty(CredentialStage, x), Late(CredentialStage, MissedScheduleCode, x.later, day))
    else if n == 2 then Faulty(WeatherStage, x)
    else if n == 3 then Unstored(WeatherStage, x)
    else if n == 4 then Faulty(WeatherStage, x)
    else if n == 5 then Late(MarketStage, OtherCode, x.now, day)
    else if n < ASSEMBLY then
      if n % 2 == 0 then Faulty(MarketStage, x) else Either(Unstored(MarketStage, x), Faulty(MarketStage, x))
    else if n == ASSEMBLY then Faulty(MarketStage, x)
    else Unstored(SealStage, x)
  }

  /** DATA_NOT_READY only while at the weather, MISSED wherever the window was missed, FAILED otherwise. */
  function FailureOf(p: Problem): Status {
    if p.stage == WeatherStage && p.code == DataNotReadyCode then DataNotReady
    else if p.code == MissedScheduleCode then MissedSchedule
    else Failed
  }

  /** The first step with a problem. */
  function FirstProblem(day: nat, xs: seq<Input>): Option<nat> {
    FirstFrom(day, xs, 0)
  }

  function FirstFrom(day: nat, xs: seq<Input>, n: nat): (k: Option<nat>)
    requires n <= |xs|
    ensures k.Some? ==> n <= k.value < |xs| && k.value < STEPS && ProblemAt(day, k.value, xs[k.value]).Some?
    ensures forall j :: n <= j < |xs| && j < STEPS && (k.Some? ==> j < k.value) ==> ProblemAt(day, j, xs[j]) == None
    decreases |xs| - n
  {
    if n == |xs| || n >= STEPS then None
    else if ProblemAt(day, n, xs[n]).Some? then Some(n)
    else FirstFrom(day, xs, n + 1)
  }

  // The ancillary books, from their first request (0) to their record (13).
  const BOOK_STEPS: nat := 14

  function BookProblemAt(decision: int, n: nat, x: Input): Option<ErrorCode> {
    if n < 12 && n % 2 == 0 then
      if x.now > decision + 330_000_000 then Some(DelayedMissedCode)
      else if x.fault.Fault? then Some(x.fault.code)
      else None
    else if n < 12 then
      if x.storeError then Some(OtherCode) else if x.fault.Fault? then Some(x.fault.code) else None
    else if n == 12 then if x.now > decision + 330_000_000 then Some(DelayedMissedCode) else None
    else if x.storeError then Some(OtherCode) else None
  }

  function BookFailureOf(code: ErrorCode): Status {
    if code == DelayedMissedCode then DelayedSnapshotMissed else DelayedSnapshotFailed
  }

  function FirstBookFrom(decision: int, zs: seq<Input>, n: nat): (k: Option<nat>)
    requires n <= |zs|
    ensures k.Some? ==> n <= k.value < |zs| && k.value < BOOK_STEPS && BookProblemAt(decision, k.value, zs[k.value]).Some?
    ensures forall j :: n <= j < |zs| && j < BOOK_STEPS && (k.Some? ==> j < k.value) ==> BookProblemAt(decision, j, zs[j]) == None
    decreases |zs| - n
  {
    if n == |zs| || n >= BOOK_STEPS then None
    else if BookProblemAt(decision, n, zs[n]).Some? then Some(n)
    else FirstBookFrom(decision, zs, n + 1)
  }

  // ----- where a task stands, from its inputs -----

  /** A chain of records, each of which must be stored before the next; the first that is not ends the task. */
  function Chain(records: seq<Pc>, status: Status, ws: seq<Input>): Pc {
    if records == [] then Done(status)
    else if ws == [] then records[0]
    else if ws[0].storeError then Raised
    else Chain(records[1..], status, ws[1..])
  }

  function StepPc(at: int, n: nat, xs: seq<Input>): Pc
    requires n == |xs| < STEPS
  {
    if n == 0 then CreateStart(at)
    else if n == 1 then OpenWeather
    else if n == 2 then FetchWeather
    else if n == 3 then WriteRawWeather
    else if n == 4 then CheckWeather
    else if n == 5 then MarketOpen
    else if n < ASSEMBLY then if n % 2 == 0 then MarketGet((n - 6) / 2) else MarketWrite((n - 7) / 2, xs[n - 1].content)
    else if n == ASSEMBLY then Assemble
    else if n == 35 then WriteWeather
    else if n == 36 then WriteMarket
    else if n == 37 then WriteForecast
    else WritePacket
  }

  function BookPc(n: nat, zs: seq<Input>): Pc
    requires n == |zs| < BOOK_STEPS
  {
    if n < 12 then if n % 2 == 0 then DelayedGet(n / 2) else DelayedWrite((n - 1) / 2, zs[n - 1].content)
    else if n == 12 then DelayedFinish
    else WriteDelayedBooks(zs[12].content)
  }

  function FailureRecords(p: Problem): seq<Pc> {
    [WriteFailure(FailureOf(p), p.stage), FailureManifest(FailureOf(p))]
  }

  function BookFailureRecords(status: Status): seq<Pc> {
    [WriteDelayedFailure(status), WriteLog(status), WriteManifest(status)]
  }

  function CaptureRecords(): seq<Pc> {
    [WriteLog(Captured), WriteManifest(Captured)]
  }

  function BooksPc(decision: int, zs: seq<Input>): Pc {
    var k := FirstBookFrom(decision, zs, 0);
    if k.Some? then
      var status := BookFailureOf(BookProblemAt(decision, k.value, zs[k.value]).value);
      Chain(BookFailureRecords(status), status, zs[k.value + 1..])
    else if |zs| < BOOK_STEPS then BookPc(|zs|, zs)
    else Chain(CaptureRecords(), Captured, zs[BOOK_STEPS..])
  }

  /** Where a timely claim holder stands after the inputs `xs` of its attempt. */
  function AttemptPc(day: nat, at: int, xs: seq<Input>): Pc {
    var k := FirstProblem(day, xs);
    if k.Some? then
      var p := ProblemAt(day, k.value, xs[k.value]).value;
      Chain(FailureRecords(p), FailureOf(p), xs[k.value + 1..])
    else if |xs| < STEPS then StepPc(at, |xs|, xs)
    else BooksPc(xs[ASSEMBLY].now, xs[STEPS..])
  }

  // ----- one input more -----

  lemma {:induction false} FirstSnoc(day: nat, xs: seq<Input>, x: Input, n: nat)
    requires n <= |xs|
    ensures var k := FirstFrom(day, xs, n);
            FirstFrom(day, xs + [x], n) ==
            if k.Some? then k
            else if |xs| < STEPS && ProblemAt(day, |xs|, x).Some? then Some(|xs|) else None
    decreases |xs| - n
  {
    hide ProblemAt;
    if n == |xs| {
      assert (xs + [x])[n] == x;
    } else if n < STEPS {
      assert (xs + [x])[n] == xs[n];
      FirstSnoc(day, xs, x, n + 1);
    }
  }

  lemma {:induction false} FirstBookSnoc(decision: int, zs: seq<Input>, x: Input, n: nat)
    requires n <= |zs|
    ensures var k := FirstBookFrom(decision, zs, n);
            FirstBookFrom(decision, zs + [x], n) ==
            if k.Some? then k
            else if |zs| < BOOK_STEPS && BookProblemAt(decision, |zs|, x).Some? then Some(|zs|) else None
    decreases |zs| - n
  {
    hide BookProblemAt;
    if n == |zs| {
      assert (zs + [x])[n] == x;
    } else if n < BOOK_STEPS {
      assert (zs + [x])[n] == zs[n];
      FirstBookSnoc(decision, zs, x, n + 1);
    }
  }

  /** The next of a chain: nothing moves once it ended. */
  lemma {:induction false} ChainSnoc(records: seq<Pc>, status: Status, ws: seq<Input>, x: Input)
    requires forall i :: 0 <= i < |records| ==> !records[i].Done? && !records[i].Raised?
    ensures var pc := Chain(records, status, ws);
            && (pc.Done? || pc.Raised? ==> Chain(records, status, ws + [x]) == pc)
            && (!pc.Done? && !pc.Raised? ==>
                  && |ws| < |records| && pc == records[|ws|]
                  && Chain(records, status, ws + [x]) ==
                     (if x.storeError then Raised else if |ws| + 1 < |records| then records[|ws| + 1] else Done(status)))
  {
    if records != [] {
      if ws == [] {
        assert (ws + [x])[1..] == [];
      } else {
        assert (ws + [x])[1..] == ws[1..] + [x];
        ChainSnoc(records[1..], status, ws[1..], x);
      }
    }
  }

  /** The places from which a task creates something. */
  predicate Creates(pc: Pc) {
    || pc.CreateClaim? || pc.LateFailure? || pc.LateManifest? || pc.CreateStart? || pc.WriteRawWeather? || pc.MarketWrite?
    || pc.WriteWeather? || pc.WriteMarket? || pc.WriteForecast? || pc.WritePacket? || pc.WriteFailure?
    || pc.FailureManifest? || pc.DelayedWrite? || pc.WriteDelayedBooks? || pc.WriteDelayedFailure? || pc.WriteLog?
    || pc.WriteManifest?
  }

  /** What a create-only store answers to the holder of the claim. */
  function AnswerTo(pc: Pc, x: Input): Reply {
    if !Creates(pc) then Silence else if x.storeError then StoreError else Stored
  }

  function Next(t: Task, x: Input): Task {
    Continue(t, AnswerTo(t.pc, x), x)
  }

  /** How many requests to the market a clean attempt has made before step `n`. */
  function Gets(n: nat): nat {
    if n < 6 then 0 else if n <= ASSEMBLY then (n - 5) / 2 else 14
  }

  /** A timely holder of the claim against the inputs of its attempt: its place, and what it has fetched. */
  ghost predicate Chronicle(t: Task, at: int, xs: seq<Input>) {
    var k := FirstProblem(t.day.day, xs);
    var clean := if k.Some? then k.value else |xs|;
    && t.pc == AttemptPc(t.day.day, at, xs)
    && (clean > 2 ==> t.weather == xs[2].content)
    && (clean > ASSEMBLY ==> t.market == xs[ASSEMBLY].content && t.decision == xs[ASSEMBLY].now)
    && (k == None && |xs| <= STEPS ==> t.counter == Gets(|xs|))
    && (k == None && |xs| >= STEPS ==> t.counter == 14 + BookGets(t.decision, xs[STEPS..]))
  }

  /** How many books were received: the requests before the first problem. */
  function BookGets(decision: int, zs: seq<Input>): nat {
    var k := FirstBookFrom(decision, zs, 0);
    var clean := if k.Some? then k.value else |zs|;
    if clean < 12 then (clean + 1) / 2 else 6
  }

  // One step of an attempt that met no problem so far, range by range.

  lemma {:induction false} OpeningStep(t: Task, at: int, xs: seq<Input>, x: Input)
    requires |xs| < 3 && t.pc == StepPc(at, |xs|, xs)
    ensures var u, p := Next(t, x), ProblemAt(t.day.day, |xs|, x);
            && u.pc == (if p.Some? then WriteFailure(FailureOf(p.value), p.value.stage) else StepPc(at, |xs| + 1, xs + [x]))
            && (p == None && |xs| == 2 ==> u.weather == x.content) && (|xs| != 2 ==> u.weather == t.weather)
  {
    hide ContinueClaiming, ContinueSealing, ContinueDelayed;
  }

  lemma {:induction false} FetchedStep(t: Task, at: int, xs: seq<Input>, x: Input)
    requires 3 <= |xs| < 6 && t.pc == StepPc(at, |xs|, xs)
    ensures var u, p := Next(t, x), ProblemAt(t.day.day, |xs|, x);
            && u.pc == (if p.Some? then WriteFailure(FailureOf(p.value), p.value.stage) else StepPc(at, |xs| + 1, xs + [x]))
            && u.weather == t.weather
  {
    hide ContinueClaiming, ContinueSealing, ContinueDelayed;
  }

  lemma {:induction false} MarketStep(t: Task, at: int, xs: seq<Input>, x: Input)
    requires 6 <= |xs| <= ASSEMBLY && t.pc == StepPc(at, |xs|, xs)
    ensures var u, p := Next(t, x), ProblemAt(t.day.day, |xs|, x);
            && u.pc == (if p.Some? then WriteFailure(FailureOf(p.value), p.value.stage) else StepPc(at, |xs| + 1, xs + [x]))
            && u.weather == t.weather
            && (p == None && |xs| == ASSEMBLY ==> u.market == x.content && u.decision == x.now)
  {
    hide ContinueClaiming, ContinueSealing, ContinueDelayed;
  }

  lemma {:induction false} SealingStep(t: Task, at: int, xs: seq<Input>, x: Input)
    requires ASSEMBLY < |xs| < STEPS && t.pc == StepPc(at, |xs|, xs)
    ensures var u, p := Next(t, x), ProblemAt(t.day.day, |xs|, x);
            && u.pc == (if p.Some? then WriteFailure(FailureOf(p.value), p.value.stage)
                        else if |xs| + 1 < STEPS then StepPc(at, |xs| + 1, xs + [x]) else DelayedGet(0))
            && u.weather == t.weather && u.market == t.market && u.decision == t.decision
  {
    hide ContinueClaiming, ContinueAcquiring, ContinueDelayed;
  }

  /** The records that follow a problem or end the run. */
  predicate Recording(pc: Pc) {
    pc.WriteFailure? || pc.FailureManifest? || pc.WriteDelayedFailure? || pc.WriteLog? || pc.WriteManifest?
    || pc.LateFailure? || pc.LateManifest?
  }

  function Following(pc: Pc): Pc
    requires Recording(pc)
  {
    match pc
    case LateFailure => LateManifest
    case LateManifest => Done(MissedSchedule)
    case WriteFailure(status, _) => FailureManifest(status)
    case FailureManifest(status) => Done(status)
    case WriteDelayedFailure(status) => WriteLog(status)
    case WriteLog(status) => WriteManifest(status)
    case WriteManifest(status) => Done(status)
  }

  lemma {:induction false} RecordingStep(t: Task, x: Input)
    requires Recording(t.pc) || t.pc.Done? || t.pc.Raised?
    ensures Next(t, x).pc == if !Recording(t.pc) then t.pc else if x.storeError then Raised else Following(t.pc)
    ensures Next(t, x).weather == t.weather && Next(t, x).market == t.market && Next(t, x).decision == t.decision
  {
    if t.pc.LateFailure? || t.pc.LateManifest? || t.pc.Done? || t.pc.Raised? {
      hide ContinueAcquiring, ContinueSealing, ContinueDelayed;
    } else if t.pc.WriteFailure? || t.pc.FailureManifest? {
      hide ContinueAcquiring, ContinueClaiming, ContinueDelayed;
    } else {
      hide ContinueAcquiring, ContinueClaiming, ContinueSealing;
    }
  }

  lemma {:induction false} BookStep(t: Task, zs: seq<Input>, x: Input)
    requires |zs| < BOOK_STEPS && t.pc == BookPc(|zs|, zs)
    ensures var u, p := Next(t, x), BookProblemAt(t.decision, |zs|, x);
            && u.pc == (if p.Some? then WriteDelayedFailure(BookFailureOf(p.value))
                        else if |zs| + 1 < BOOK_STEPS then BookPc(|zs| + 1, zs + [x]) else WriteLog(Captured))
            && u.weather == t.weather && u.market == t.market && u.decision == t.decision
  {
    hide ContinueClaiming, ContinueAcquiring, ContinueSealing;
  }

  /** A chain whose records are the recording steps of the protocol, in their order. */
  predicate IsChain(records: seq<Pc>, status: Status) {
    && (forall i :: 0 <= i < |records| ==> Recording(records[i]))
    && (forall i :: 0 <= i < |records| ==> Following(records[i]) == if i + 1 < |records| then records[i + 1] else Done(status))
  }

  lemma {:induction false} PairChain(a: Pc, b: Pc, status: Status)
    requires Recording(a) && Recording(b) && Following(a) == b && Following(b) == Done(status)
    ensures IsChain([a, b], status)
  {
    hide Recording, Following;
    var records := [a, b];
    forall i | 0 <= i < |records|
      ensures Recording(records[i]) && Following(records[i]) == if i + 1 < |records| then records[i + 1] else Done(status) {
      assert i == 0 || i == 1;
    }
  }

  lemma {:induction false} TripleChain(a: Pc, b: Pc, c: Pc, status: Status)
    requires Recording(a) && Recording(b) && Recording(c)
    requires Following(a) == b && Following(b) == c && Following(c) == Done(status)
    ensures IsChain([a, b, c], status)
  {
    hide Recording, Following;
    var records := [a, b, c];
    forall i | 0 <= i < |records|
      ensures Recording(records[i]) && Following(records[i]) == if i + 1 < |records| then records[i + 1] else Done(status) {
      assert i == 0 || i == 1 || i == 2;
    }
  }

  lemma {:induction false} RecordsChain(p: Problem, status: Status)
    ensures IsChain(FailureRecords(p), FailureOf(p)) && IsChain(BookFailureRecords(status), status)
    ensures IsChain(CaptureRecords(), Captured)
    ensures IsChain([LateFailure, LateManifest], MissedSchedule)
  {
    hide FailureOf, IsChain;
    PairChain(WriteFailure(FailureOf(p), p.stage), FailureManifest(FailureOf(p)), FailureOf(p));
    TripleChain(WriteDelayedFailure(status), WriteLog(status), WriteManifest(status), status);
    PairChain(WriteLog(Captured), WriteManifest(Captured), Captured);
    PairChain(LateFailure, LateManifest, MissedSchedule);
  }

  lemma {:induction false} ChainStep(t: Task, records: seq<Pc>, status: Status, ws: seq<Input>, x: Input)
    requires IsChain(records, status) && t.pc == Chain(records, status, ws)
    ensures Next(t, x).pc == Chain(records, status, ws + [x])
    ensures Next(t, x).weather == t.weather && Next(t, x).market == t.market && Next(t, x).decision == t.decision
  {
    hide Next, Chain, Following;
    ChainSnoc(records, status, ws, x);
    RecordingStep(t, x);
  }

  // ----- the whole course -----

  ghost predicate SameDocs(t: Task, u: Task) {
    u.weather == t.weather && u.market == t.market && u.decision == t.decision
  }

  lemma {:induction false} NextDay(t: Task, x: Input)
    ensures Next(t, x).day == t.day
  {
  }

  /** A step after a problem, or after everything is sealed: only records are left. */
  lemma {:induction false} StoppedCourse(t: Task, at: int, xs: seq<Input>, x: Input)
    requires t.pc == AttemptPc(t.day.day, at, xs) && FirstProblem(t.day.day, xs).Some?
    ensures Next(t, x).pc == AttemptPc(t.day.day, at, xs + [x]) && SameDocs(t, Next(t, x))
    ensures FirstProblem(t.day.day, xs + [x]) == FirstProblem(t.day.day, xs)
  {
    hide Next, Chain, ProblemAt, BooksPc, FirstFrom, FailureRecords, FailureOf;
    var k := FirstProblem(t.day.day, xs).value;
    var p := ProblemAt(t.day.day, k, xs[k]).value;
    FirstSnoc(t.day.day, xs, x, 0);
    assert (xs + [x])[k] == xs[k] && (xs + [x])[k + 1..] == xs[k + 1..] + [x];
    RecordsChain(p, FailureOf(p));
    ChainStep(t, FailureRecords(p), FailureOf(p), xs[k + 1..], x);
  }

  lemma {:induction false} BooksCourse(t: Task, zs: seq<Input>, x: Input)
    requires t.pc == BooksPc(t.decision, zs)
    ensures Next(t, x).pc == BooksPc(t.decision, zs + [x]) && SameDocs(t, Next(t, x))
  {
    hide Next, Chain, BookProblemAt, FirstBookFrom, BookPc, IsChain;
    var k := FirstBookFrom(t.decision, zs, 0);
    FirstBookSnoc(t.decision, zs, x, 0);
    if k.Some? {
      var status := BookFailureOf(BookProblemAt(t.decision, k.value, zs[k.value]).value);
      assert (zs + [x])[k.value] == zs[k.value] && (zs + [x])[k.value + 1..] == zs[k.value + 1..] + [x];
      RecordsChain(Problem(SealStage, OtherCode), status);
      ChainStep(t, BookFailureRecords(status), status, zs[k.value + 1..], x);
    } else if |zs| < BOOK_STEPS {
      BookStep(t, zs, x);
      assert (zs + [x])[|zs|] == x && (zs + [x])[|zs| + 1..] == [];
      BookEnds(t, zs, x);
    } else {
      assert (zs + [x])[BOOK_STEPS..] == zs[BOOK_STEPS..] + [x];
      RecordsChain(Problem(SealStage, OtherCode), Captured);
      ChainStep(t, CaptureRecords(), Captured, zs[BOOK_STEPS..], x);
    }
  }

  lemma {:induction false} BookEnds(t: Task, zs: seq<Input>, x: Input)
    requires |zs| < BOOK_STEPS
    ensures |zs| + 1 == BOOK_STEPS ==> (zs + [x])[BOOK_STEPS..] == []
    ensures forall records, status :: records != [] ==> Chain(records, status, []) == records[0]
  {
  }

  /** A step of an attempt that met no problem so far. */
  lemma {:induction false} CleanCourse(t: Task, at: int, xs: seq<Input>, x: Input)
    requires Chronicle(t, at, xs) && FirstProblem(t.day.day, xs) == None && |xs| < STEPS
    ensures Next(t, x).pc == AttemptPc(t.day.day, at, xs + [x])
    ensures FirstProblem(t.day.day, xs + [x]) == if ProblemAt(t.day.day, |xs|, x).Some? then Some(|xs|) else None
    ensures |xs| != 2 ==> Next(t, x).weather == t.weather
    ensures |xs| > ASSEMBLY ==> SameDocs(t, Next(t, x))
    ensures ProblemAt(t.day.day, |xs|, x) == None && |xs| == 2 ==> Next(t, x).weather == x.content
    ensures ProblemAt(t.day.day, |xs|, x) == None && |xs| == ASSEMBLY ==> Next(t, x).market == x.content && Next(t, x).decision == x.now
  {
    hide Next, ProblemAt, FirstFrom, StepPc, FirstBookFrom, BookPc;
    var m := |xs|;
    FirstSnoc(t.day.day, xs, x, 0);
    assert (xs + [x])[m] == x && (xs + [x])[m + 1..] == [];
    if m < 3 {
      OpeningStep(t, at, xs, x);
    } else if m < 6 {
      FetchedStep(t, at, xs, x);
    } else if m <= ASSEMBLY {
      MarketStep(t, at, xs, x);
    } else {
      SealingStep(t, at, xs, x);
      assert m + 1 == STEPS ==> (xs + [x])[STEPS..] == [];
      BooksBegin(t.decision);
      BooksBegin((xs + [x])[ASSEMBLY].now);
    }
    EmptyChain(FailureOf(GetOr(ProblemAt(t.day.day, m, x), Problem(StartStage, OtherCode))));
  }

  function GetOr<T>(x: Option<T>, default: T): T {
    if x.Some? then x.value else default
  }

  lemma {:induction false} EmptyChain(status: Status)
    ensures forall records :: records != [] ==> Chain(records, status, []) == records[0]
  {
  }

  lemma {:induction false} BooksBegin(decision: int)
    ensures BooksPc(decision, []) == DelayedGet(0)
  {
  }

  /** The chronicle goes on, whatever the next input is. */
  lemma {:induction false} ChronicleGoesOn(t: Task, at: int, xs: seq<Input>, x: Input)
    requires Chronicle(t, at, xs)
    ensures Next(t, x).day == t.day && Chronicle(Next(t, x), at, xs + [x])
  {
    hide Next, AttemptPc, ProblemAt, FirstFrom, BookGets;
    var k := FirstProblem(t.day.day, xs);
    assert forall i :: 0 <= i < |xs| ==> (xs + [x])[i] == xs[i];
    NextDay(t, x);
    if k.Some? {
      StoppedCourse(t, at, xs, x);
    } else if |xs| < STEPS {
      CleanCourse(t, at, xs, x);
      assert t.pc == StepPc(at, |xs|, xs) by {
        CleanPlace(t.day.day, at, xs);
      }
      if ProblemAt(t.day.day, |xs|, x) == None {
        CleanCounter(t, at, xs, x);
        if |xs| + 1 == STEPS {
          SealedPlace(t.day.day, at, xs + [x]);
          NoBooksYet(t.decision, (xs + [x])[ASSEMBLY].now);
          assert (xs + [x])[STEPS..] == [];
        }
      }
    } else {
      FirstSnoc(t.day.day, xs, x, 0);
      assert (xs + [x])[STEPS..] == xs[STEPS..] + [x];
      PastPacket(t.day.day, at, xs);
      PastPacket(t.day.day, at, xs + [x]);
      BooksCourse(t, xs[STEPS..], x);
      BooksCounterStep(t, xs[STEPS..], x);
    }
  }

  lemma {:induction false} NoBooksYet(decision: int, other: int)
    ensures BookGets(decision, []) == 0 && BookGets(other, []) == 0
  {
  }

  lemma {:induction false} OpeningCounter(t: Task, at: int, xs: seq<Input>, x: Input)
    requires |xs| < 6 && t.pc == StepPc(at, |xs|, xs) && t.counter == Gets(|xs|)
    ensures Next(t, x).counter == Gets(|xs| + 1)
  {
    hide ContinueClaiming, ContinueSealing, ContinueDelayed;
  }

  lemma {:induction false} MarketCounter(t: Task, at: int, xs: seq<Input>, x: Input)
    requires 6 <= |xs| <= ASSEMBLY && t.pc == StepPc(at, |xs|, xs) && t.counter == Gets(|xs|)
    requires ProblemAt(t.day.day, |xs|, x) == None
    ensures Next(t, x).counter == Gets(|xs| + 1)
  {
    hide ContinueClaiming, ContinueSealing, ContinueDelayed;
  }

  lemma {:induction false} SealingCounter(t: Task, at: int, xs: seq<Input>, x: Input)
    requires ASSEMBLY < |xs| < STEPS && t.pc == StepPc(at, |xs|, xs) && t.counter == Gets(|xs|)
    ensures Next(t, x).counter == Gets(|xs| + 1)
  {
    hide ContinueClaiming, ContinueAcquiring, ContinueDelayed;
  }

  lemma {:induction false} CleanCounter(t: Task, at: int, xs: seq<Input>, x: Input)
    requires |xs| < STEPS && t.pc == StepPc(at, |xs|, xs) && t.counter == Gets(|xs|)
    requires ProblemAt(t.day.day, |xs|, x) == None
    ensures Next(t, x).counter == Gets(|xs| + 1)
  {
    hide Next, ProblemAt, StepPc, Gets;
    if |xs| < 6 {
      OpeningCounter(t, at, xs, x);
    } else if |xs| <= ASSEMBLY {
      MarketCounter(t, at, xs, x);
    } else {
      SealingCounter(t, at, xs, x);
    }
  }

  predicate LatePc(pc: Pc) {
    DelayedPhase(pc) || pc.Done? || pc.Raised?
  }

  lemma {:induction false} BookCounter(t: Task, zs: seq<Input>, x: Input)
    requires |zs| < BOOK_STEPS && t.pc == BookPc(|zs|, zs)
    ensures var received := |zs| < 12 && |zs| % 2 == 0 && BookProblemAt(t.decision, |zs|, x) == None;
            Next(t, x).counter == t.counter + if received then 1 else 0
  {
    hide ContinueClaiming, ContinueAcquiring, ContinueSealing;
  }

  lemma {:induction false} RecordingCounter(t: Task, x: Input)
    requires Recording(t.pc) || t.pc.Done? || t.pc.Raised?
    ensures Next(t, x).counter == t.counter
  {
    if t.pc.LateFailure? || t.pc.LateManifest? || t.pc.Done? || t.pc.Raised? {
      hide ContinueAcquiring, ContinueSealing, ContinueDelayed;
    } else if t.pc.WriteFailure? || t.pc.FailureManifest? {
      hide ContinueAcquiring, ContinueClaiming, ContinueDelayed;
    } else {
      hide ContinueAcquiring, ContinueClaiming, ContinueSealing;
    }
  }

  lemma {:induction false} BookGetsSnoc(decision: int, zs: seq<Input>, x: Input)
    ensures var clean := FirstBookFrom(decision, zs, 0) == None && |zs| < BOOK_STEPS;
            var received := clean && |zs| < 12 && |zs| % 2 == 0 && BookProblemAt(decision, |zs|, x) == None;
            BookGets(decision, zs + [x]) == BookGets(decision, zs) + if received then 1 else 0
  {
    hide BookProblemAt, FirstBookFrom;
    FirstBookSnoc(decision, zs, x, 0);
  }

  lemma {:induction false} ChainIsRecording(records: seq<Pc>, status: Status, ws: seq<Input>)
    requires IsChain(records, status)
    ensures var pc := Chain(records, status, ws); Recording(pc) || pc.Done? || pc.Raised?
  {
    hide Recording, Following, Chain;
    ChainPlaces(records, status, ws);
  }

  /** The books' place: at a step of their own while clean, at a record afterwards. */
  lemma {:induction false} BooksKind(decision: int, zs: seq<Input>)
    ensures var k, pc := FirstBookFrom(decision, zs, 0), BooksPc(decision, zs);
            if k == None && |zs| < BOOK_STEPS then pc == BookPc(|zs|, zs) else Recording(pc) || pc.Done? || pc.Raised?
  {
    hide Chain, IsChain, BookProblemAt, FirstBookFrom, BookPc, Recording, FailureOf;
    var k := FirstBookFrom(decision, zs, 0);
    if k.Some? {
      var status := BookFailureOf(BookProblemAt(decision, k.value, zs[k.value]).value);
      RecordsChain(Problem(SealStage, OtherCode), status);
      ChainIsRecording(BookFailureRecords(status), status, zs[k.value + 1..]);
    } else if |zs| >= BOOK_STEPS {
      RecordsChain(Problem(SealStage, OtherCode), Captured);
      ChainIsRecording(CaptureRecords(), Captured, zs[BOOK_STEPS..]);
    }
  }

  lemma {:induction false} BooksReceived(decision: int, zs: seq<Input>)
    ensures BooksPc(decision, zs).DelayedWrite? ==> BookGets(decision, zs) >= 1
  {
    hide BooksPc, BookProblemAt, FirstBookFrom;
    BooksKind(decision, zs);
  }

  lemma {:induction false} BooksCounterStep(t: Task, zs: seq<Input>, x: Input)
    requires t.pc == BooksPc(t.decision, zs) && t.counter == 14 + BookGets(t.decision, zs)
    ensures Next(t, x).counter == 14 + BookGets(t.decision, zs + [x])
  {
    hide Next, BooksPc, BookGets, BookProblemAt, FirstBookFrom, BookPc, Recording;
    BooksKind(t.decision, zs);
    BookGetsSnoc(t.decision, zs, x);
    if FirstBookFrom(t.decision, zs, 0) == None && |zs| < BOOK_STEPS {
      BookCounter(t, zs, x);
    } else {
      RecordingCounter(t, x);
    }
  }

  lemma {:induction false} PastPacket(day: nat, at: int, xs: seq<Input>)
    requires FirstProblem(day, xs) == None && |xs| >= STEPS
    ensures AttemptPc(day, at, xs) == BooksPc(xs[ASSEMBLY].now, xs[STEPS..])
  {
  }

  lemma {:induction false} CleanPlace(day: nat, at: int, xs: seq<Input>)
    requires FirstProblem(day, xs) == None && |xs| < STEPS
    ensures AttemptPc(day, at, xs) == StepPc(at, |xs|, xs)
  {
  }

  lemma {:induction false} SealedPlace(day: nat, at: int, xs: seq<Input>)
    requires FirstProblem(day, xs) == None && |xs| == STEPS
    ensures AttemptPc(day, at, xs) == DelayedGet(0)
  {
    hide FirstFrom;
    assert xs[STEPS..] == [];
  }

  // ----- where packet and failure get written -----

  lemma {:induction false} ChainPlaces(records: seq<Pc>, status: Status, ws: seq<Input>)
    ensures var pc := Chain(records, status, ws);
            pc == Done(status) || pc == Raised || (|ws| < |records| && pc == records[|ws|])
  {
    if records != [] && ws != [] && !ws[0].storeError {
      ChainPlaces(records[1..], status, ws[1..]);
    }
  }

  lemma {:induction false} BooksPlaces(decision: int, zs: seq<Input>)
    ensures LatePc(BooksPc(decision, zs))
  {
    hide Chain, BookProblemAt, FirstBookFrom;
    var k := FirstBookFrom(decision, zs, 0);
    if k.Some? {
      var status := BookFailureOf(BookProblemAt(decision, k.value, zs[k.value]).value);
      ChainPlaces(BookFailureRecords(status), status, zs[k.value + 1..]);
    } else if |zs| >= BOOK_STEPS {
      ChainPlaces(CaptureRecords(), Captured, zs[BOOK_STEPS..]);
    }
  }

  /** The packet is written at the last step of a clean attempt, a failure right after the first problem. */
  lemma {:induction false} AttemptPlaces(day: nat, at: int, xs: seq<Input>)
    ensures var pc, k := AttemptPc(day, at, xs), FirstProblem(day, xs);
            && !pc.LateFailure?
            && (pc.WritePacket? <==> k == None && |xs| == STEPS - 1)
            && (pc.WriteFailure? <==> k.Some? && |xs| == k.value + 1)
            && (pc.WriteFailure? ==>
                  var p := ProblemAt(day, k.value, xs[k.value]).value; pc == WriteFailure(FailureOf(p), p.stage))
  {
    hide Chain, ProblemAt, BooksPc, FirstFrom;
    var k := FirstProblem(day, xs);
    if k.Some? {
      var p := ProblemAt(day, k.value, xs[k.value]).value;
      ChainPlaces(FailureRecords(p), FailureOf(p), xs[k.value + 1..]);
      EmptyChain(FailureOf(p));
      if |xs| == k.value + 1 {
        assert xs[k.value + 1..] == [];
      }
    } else if |xs| >= STEPS {
      BooksPlaces(xs[ASSEMBLY].now, xs[STEPS..]);
    }
  }
}
