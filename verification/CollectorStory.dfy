/**
 A task's inputs tell its story over every run of any number of tasks: where it stands, and what is stored for its
 city and date.
*/
module CollectorStory {
  import opened CollectorKeys
  import opened Collector
  import opened CollectorEvidence
  import opened CollectorCourse

  // ----- every run -----

  /** The inputs of one task's own steps, in order. */
  function OwnInputs(schedule: seq<Event>, i: nat): seq<Input> {
    if schedule == [] then []
    else (if schedule[0].task == i then [schedule[0].input] else []) + OwnInputs(schedule[1..], i)
  }

  // The gate, five probes and the claim come before the attempt.
  const CLAIM_STEPS: nat := 7

  /** The gate lets a task pass on its own day from the opening on; after the closing it is late. */
  predicate Passed(day: nat, at: int) {
    day * 86_400_000_000 <= at < (day + 1) * 86_400_000_000 && Opens(day) <= at
  }

  predicate NoStoreError(ys: seq<Input>) {
    forall i :: 1 <= i < |ys| ==> !ys[i].storeError
  }

  predicate Underway(day: nat, ys: seq<Input>, late: bool, at: int) {
    ys != [] && at == ys[0].now && Passed(day, at) && (late <==> at >= Closes(day)) && NoStoreError(ys)
  }

  /** A task without the claim against its inputs. */
  predicate Early(t: Task, ys: seq<Input>) {
    && t.counter == 0
    && match t.pc
       case Gate => ys == []
       case CheckExisting(late, at, i) => |ys| == i + 1 && i <= 4 && Underway(t.day.day, ys, late, at)
       case CreateClaim(late, at) => |ys| == 6 && Underway(t.day.day, ys, late, at)
       case Done(_) => ys != [] && Passed(t.day.day, ys[0].now)
       case _ => ys != [] && (!Passed(t.day.day, ys[0].now) || exists i :: 1 <= i < |ys| && i <= 6 && ys[i].storeError)
  }

  // ----- what is stored, from the inputs -----

  /** The step of a clean attempt that writes the artifact. */
  function StepOf(a: Artifact): Option<nat> {
    match a
    case Start => Some(0)
    case RawWeather => Some(3)
    case RawKalshi(n) => if 1 <= n <= 14 then Some(5 + 2 * n) else None
    case Weather => Some(35)
    case Market => Some(36)
    case Forecast => Some(37)
    case Packet => Some(38)
    case _ => None
  }

  /** Step `n` was reached without a problem and its create was stored. */
  predicate Reached(day: nat, xs: seq<Input>, n: nat) {
    |xs| > n && !xs[n].storeError && var k := FirstProblem(day, xs); k.Some? ==> k.value >= n
  }

  /** What the artifact holds; the packet's content is a statement about the store. */
  function Contents(at: int, xs: seq<Input>, a: Artifact): Payload
    requires StepOf(a).Some? && |xs| > StepOf(a).value && !a.Packet?
  {
    match a
    case Start => StartDoc(at)
    case RawWeather => RawDoc(xs[2].content)
    case RawKalshi(n) => RawDoc(xs[4 + 2 * n].content)
    case Weather => WeatherDoc(xs[2].content)
    case Market => MarketDoc(xs[34].content)
    case Forecast => ForecastDoc(Sha(WeatherDoc(xs[2].content)), Sha(MarketDoc(xs[34].content)), xs[34].now)
  }

  predicate Due(day: nat, ys: seq<Input>, a: Artifact)
    requires |ys| >= CLAIM_STEPS && StepOf(a).Some?
  {
    ys[0].now < Closes(day) && Reached(day, ys[CLAIM_STEPS..], StepOf(a).value)
  }

  /** The status and stage of the failure record, once there is one. */
  function FailureDue(day: nat, ys: seq<Input>): Option<(Status, Stage)>
    requires |ys| >= CLAIM_STEPS
  {
    var xs := ys[CLAIM_STEPS..];
    if ys[0].now >= Closes(day) then
      if |xs| >= 1 && !xs[0].storeError then Some((MissedSchedule, GateStage)) else None
    else
      AttemptFailure(day, xs)
  }

  function AttemptFailure(day: nat, xs: seq<Input>): Option<(Status, Stage)> {
    var k := FirstProblem(day, xs);
    if k.Some? && |xs| >= k.value + 2 && !xs[k.value + 1].storeError then
      var p := ProblemAt(day, k.value, xs[k.value]).value;
      Some((FailureOf(p), p.stage))
    else None
  }

  /** One artifact of an attempt: stored exactly when due, with its contents. */
  ghost predicate ArtifactTold(objects: Objects, day: Day, ys: seq<Input>, a: Artifact)
    requires |ys| >= CLAIM_STEPS && StepOf(a).Some?
  {
    var n := ArtifactPath(day, a);
    && (n in objects <==> Due(day.day, ys, a))
    && (n in objects && !a.Packet? ==> objects[n] == Contents(ys[0].now, ys[CLAIM_STEPS..], a))
  }

  ghost predicate FailureTold(objects: Objects, day: Day, ys: seq<Input>)
    requires |ys| >= CLAIM_STEPS
  {
    var n, due := ArtifactPath(day, Failure), FailureDue(day.day, ys);
    && (n in objects <==> due.Some?)
    && (n in objects ==> objects[n].FailureDoc? && due == Some((objects[n].status, objects[n].stage)))
  }

  ghost predicate ClaimTold(objects: Objects, day: Day, ys: seq<Input>)
    requires |ys| >= CLAIM_STEPS
  {
    var n := ClaimPath(day);
    n in objects && objects[n] == ClaimDoc(ys[0].now >= Closes(day.day), ys[0].now)
  }

  /** A failure record lists everything stored besides itself and the manifest; a late one lists nothing. */
  ghost predicate FailureLists(objects: Objects, day: Day, late: bool) {
    var failure, manifest := ArtifactPath(day, Failure), ArtifactPath(day, Manifest);
    failure in objects ==>
      && objects[failure].FailureDoc?
      && (forall n :: n in objects[failure].created <==>
            !late && n in objects && Accepts(day, n) && n != failure && n != manifest)
  }

  // ----- what is stored of the ancillary books -----

  /** The n inputs from `from` on are there and all their creates were stored. */
  predicate AllStored(xs: seq<Input>, from: nat, n: nat) {
    |xs| >= from + n && forall i :: from <= i < from + n ==> !xs[i].storeError
  }

  /** Step `n` of the books was reached without a problem and its create was stored. */
  predicate BookReached(decision: int, zs: seq<Input>, n: nat) {
    |zs| > n && !zs[n].storeError && var k := FirstBookFrom(decision, zs, 0); k.Some? ==> k.value >= n
  }

  /** What the books' inputs put under each name, if anything. */
  function BookDoc(decision: int, zs: seq<Input>, a: Artifact): Option<Payload> {
    var k := FirstBookFrom(decision, zs, 0);
    match a
    case RawKalshi(n) =>
      if 15 <= n <= 20 && BookReached(decision, zs, 2 * (n - 15) + 1) then Some(RawDoc(zs[2 * (n - 15)].content)) else None
    case DelayedBooks => if BookReached(decision, zs, 13) then Some(DelayedDoc(zs[12].content)) else None
    case DelayedFailure =>
      if k.Some? && AllStored(zs, k.value + 1, 1)
      then Some(DelayedFailureDoc(BookFailureOf(BookProblemAt(decision, k.value, zs[k.value]).value))) else None
    case StructuredLog =>
      if k.Some? then
        if AllStored(zs, k.value + 1, 2)
        then Some(LogDoc(BookFailureOf(BookProblemAt(decision, k.value, zs[k.value]).value), 14 + BookGets(decision, zs))) else None
      else if AllStored(zs, 14, 1) then Some(LogDoc(Captured, 20)) else None
    case _ => None
  }

  predicate IsBookArtifact(a: Artifact) {
    a.DelayedBooks? || a.DelayedFailure? || a.StructuredLog? || (a.RawKalshi? && 15 <= a.n <= 20)
  }

  function BookDue(day: nat, ys: seq<Input>, a: Artifact): Option<Payload>
    requires |ys| >= CLAIM_STEPS
  {
    var xs := ys[CLAIM_STEPS..];
    if ys[0].now < Closes(day) && |xs| >= STEPS && FirstProblem(day, xs) == None
    then BookDoc(xs[ASSEMBLY].now, xs[STEPS..], a) else None
  }

  ghost predicate BookTold(objects: Objects, day: Day, ys: seq<Input>, a: Artifact)
    requires |ys| >= CLAIM_STEPS
  {
    var n, due := ArtifactPath(day, a), BookDue(day.day, ys, a);
    if due.Some? then n in objects && objects[n] == due.value else n !in objects
  }

  ghost predicate Recorded(objects: Objects, day: Day, ys: seq<Input>)
    requires |ys| >= CLAIM_STEPS
  {
    && ClaimTold(objects, day, ys)
    && FailureTold(objects, day, ys)
    && FailureLists(objects, day, ys[0].now >= Closes(day.day))
    && (forall a :: IsBookArtifact(a) ==> BookTold(objects, day, ys, a))
    && (forall a :: StepOf(a).Some? ==> ArtifactTold(objects, day, ys, a))
  }

  ghost predicate Standing(t: Task, ys: seq<Input>)
    requires |ys| >= CLAIM_STEPS
  {
    && Passed(t.day.day, ys[0].now)
    && (forall i :: 1 <= i < CLAIM_STEPS ==> !ys[i].storeError)
    && if ys[0].now >= Closes(t.day.day) then t.pc == Chain([LateFailure, LateManifest], MissedSchedule, ys[CLAIM_STEPS..])
       else Chronicle(t, ys[0].now, ys[CLAIM_STEPS..])
  }

  ghost predicate Told(objects: Objects, t: Task, ys: seq<Input>) {
    if Visitor(t) then Early(t, ys)
    else |ys| >= CLAIM_STEPS && Standing(t, ys) && Recorded(objects, t.day, ys)
  }

  // ----- one step of the claim holder -----

  /** Two tasks that differ at most in what they recorded. */
  ghost predicate Alike(t: Task, u: Task) {
    u.pc == t.pc && u.counter == t.counter && u.day == t.day && u.late == t.late && SameDocs(t, u)
  }

  lemma {:induction false} AlikeClaiming(t: Task, u: Task, reply: Reply, x: Input)
    requires Alike(t, u)
    ensures Alike(ContinueClaiming(t, reply, x), ContinueClaiming(u, reply, x))
  {
  }

  lemma {:induction false} AlikeAcquiring(t: Task, u: Task, reply: Reply, x: Input)
    requires Alike(t, u)
    ensures Alike(ContinueAcquiring(t, reply, x), ContinueAcquiring(u, reply, x))
  {
  }

  lemma {:induction false} AlikeSealing(t: Task, u: Task, reply: Reply, x: Input)
    requires Alike(t, u)
    ensures Alike(ContinueSealing(t, reply, x), ContinueSealing(u, reply, x))
  {
  }

  lemma {:induction false} AlikeDelayed(t: Task, u: Task, reply: Reply, x: Input)
    requires Alike(t, u)
    ensures Alike(ContinueDelayed(t, reply, x), ContinueDelayed(u, reply, x))
  {
  }

  lemma {:induction false} AlikeContinue(t: Task, u: Task, reply: Reply, x: Input)
    requires Alike(t, u)
    ensures Alike(Continue(t, reply, x), Continue(u, reply, x))
  {
    hide ContinueClaiming, ContinueAcquiring, ContinueSealing, ContinueDelayed, AcquiringPhase, SealingPhase, DelayedPhase;
    AlikeClaiming(t, u, reply, x);
    AlikeAcquiring(t, u, reply, x);
    AlikeSealing(t, u, reply, x);
    AlikeDelayed(t, u, reply, x);
  }

  lemma {:induction false} CreatesIsCreate(t: Task)
    ensures Creates(t.pc) <==> NextOp(t).Create?
    ensures OwnerPc(t.pc) ==> (Creates(t.pc) <==> Written(t.pc, t.counter).Makes?)
  {
    hide ArtifactPath, ClaimPath;
  }

  /** The store answers a claim holder by its error flag alone. */
  lemma {:induction false} OwnerAnswer(objects: Objects, t: Task, x: Input)
    requires Owner(objects, t)
    ensures ApplyOp(objects, t.day, NextOp(t), x.storeError).1 == AnswerTo(t.pc, x)
  {
    CreatesIsCreate(t);
    if Creates(t.pc) {
      OwnerNeverCollides(objects, t, Written(t.pc, t.counter).artifact);
    } else {
      WrittenIsNext(t, Start);
    }
    hide NextOp, ArtifactPath, ClaimPath, MayHold, Written, Owner, Accepts;
  }

  lemma {:induction false} OwnerNext(objects: Objects, t: Task, x: Input)
    requires Owner(objects, t)
    ensures Alike(Next(t, x), TaskStep(objects, t, x).1)
  {
    hide NextOp, Continue, ApplyOp, Owner;
    OwnerAnswer(objects, t, x);
    var reply := AnswerTo(t.pc, x);
    AlikeContinue(t, Record(t, reply), reply, x);
  }

  lemma {:induction false} ReachedSnoc(day: nat, xs: seq<Input>, x: Input, n: nat)
    requires n < STEPS
    ensures Reached(day, xs + [x], n) <==> Reached(day, xs, n) || (|xs| == n && FirstProblem(day, xs) == None && !x.storeError)
  {
    hide ProblemAt, FirstFrom;
    FirstSnoc(day, xs, x, 0);
    assert forall i :: 0 <= i < |xs| ==> (xs + [x])[i] == xs[i];
  }

  lemma {:induction false} AttemptFailureSnoc(day: nat, xs: seq<Input>, x: Input)
    ensures var k := FirstProblem(day, xs);
            AttemptFailure(day, xs + [x]) ==
            if AttemptFailure(day, xs).Some? then AttemptFailure(day, xs)
            else if k.Some? && |xs| == k.value + 1 && !x.storeError then
              var p := ProblemAt(day, k.value, xs[k.value]).value; Some((FailureOf(p), p.stage))
            else None
  {
    hide ProblemAt, FirstFrom, FailureOf;
    FirstSnoc(day, xs, x, 0);
    assert forall i :: 0 <= i < |xs| ==> (xs + [x])[i] == xs[i];
  }

  /** Which artifact of the attempt gets written at which place of a clean attempt. */
  lemma {:induction false} StepWrites(at: int, xs: seq<Input>, a: Artifact)
    requires |xs| < STEPS && StepOf(a).Some?
    ensures Written(StepPc(at, |xs|, xs), Gets(|xs|)) == Makes(a) <==> StepOf(a) == Some(|xs|)
  {
  }

  lemma {:induction false} LateWrites(pc: Pc, counter: nat, a: Artifact)
    requires StepOf(a).Some? && (LatePc(pc) || pc.WriteFailure? || pc.FailureManifest? || pc.LateFailure? || pc.LateManifest?)
    requires pc.DelayedWrite? ==> counter > 14
    ensures Written(pc, counter) != Makes(a)
  {
  }

  lemma {:induction false} AttemptWrites(t: Task, at: int, xs: seq<Input>, a: Artifact)
    requires Chronicle(t, at, xs) && StepOf(a).Some?
    ensures Written(t.pc, t.counter) == Makes(a) <==> StepOf(a) == Some(|xs|) && FirstProblem(t.day.day, xs) == None
  {
    hide Written, StepOf, LatePc, Chain, ProblemAt, BooksPc, FirstFrom, StepPc;
    var k := FirstProblem(t.day.day, xs);
    StepOfBound(a);
    if k.Some? {
      var p := ProblemAt(t.day.day, k.value, xs[k.value]).value;
      ChainPlaces(FailureRecords(p), FailureOf(p), xs[k.value + 1..]);
      StoppedIsLate(t.pc);
      LateWrites(t.pc, t.counter, a);
    } else if |xs| < STEPS {
      StepWrites(at, xs, a);
    } else {
      BooksPlaces(xs[ASSEMBLY].now, xs[STEPS..]);
      BooksReceived(xs[ASSEMBLY].now, xs[STEPS..]);
      LateWrites(t.pc, t.counter, a);
    }
  }

  lemma {:induction false} StoppedIsLate(pc: Pc)
    ensures pc.Done? || pc.Raised? ==> LatePc(pc)
  {
  }

  lemma {:induction false} StepOfBound(a: Artifact)
    ensures StepOf(a).Some? ==> StepOf(a).value < STEPS
  {
  }

  lemma {:induction false} ContentsSnoc(at: int, xs: seq<Input>, x: Input, a: Artifact)
    requires StepOf(a).Some? && |xs| > StepOf(a).value && !a.Packet?
    ensures Contents(at, xs + [x], a) == Contents(at, xs, a)
  {
  }

  /** What a clean attempt writes is what its inputs say. */
  lemma {:induction false} PayloadIs(t: Task, at: int, xs: seq<Input>, x: Input, a: Artifact)
    requires Chronicle(t, at, xs) && StepOf(a) == Some(|xs|) && FirstProblem(t.day.day, xs) == None && !a.Packet?
    ensures NextOp(t).Create? && NextOp(t).payload == Contents(at, xs + [x], a)
  {
    hide ArtifactPath, ProblemAt, FirstFrom;
    assert t.pc == StepPc(at, |xs|, xs);
    assert forall i :: 0 <= i < |xs| ==> (xs + [x])[i] == xs[i];
  }

  /** An owner's step adds the artifact being written, if the store takes it, and changes no other. */
  lemma {:induction false} OwnerStores(objects: Objects, t: Task, x: Input, a: Artifact)
    requires Owner(objects, t)
    ensures var after, n := TaskStep(objects, t, x).0, ArtifactPath(t.day, a);
            var written := Written(t.pc, t.counter) == Makes(a) && !x.storeError;
            && (n in after <==> n in objects || written)
            && (n in objects ==> !written && after[n] == objects[n])
            && (written ==> NextOp(t).Create? && after[n] == NextOp(t).payload)
  {
    StoredExactly(objects, t, x.storeError, a);
    StoredFacts(objects, t, x.storeError);
    OwnerAnswer(objects, t, x);
    CreatesIsCreate(t);
    OwnerPlace(objects, t);
    hide Owner, OwnRecord, NextOp, ArtifactPath, ClaimPath, Written, Continue, ApplyOp, Answer, Creates, Record;
  }

  lemma {:induction false} OwnerPlace(objects: Objects, t: Task)
    requires Owner(objects, t)
    ensures OwnerPc(t.pc)
  {
  }

  /** What is due grows exactly by what is being written. */
  lemma {:induction false} DueGrows(t: Task, ys: seq<Input>, x: Input, a: Artifact)
    requires |ys| >= CLAIM_STEPS && Standing(t, ys) && StepOf(a).Some?
    ensures Due(t.day.day, ys + [x], a) <==> Due(t.day.day, ys, a) || (Written(t.pc, t.counter) == Makes(a) && !x.storeError)
  {
    hide ArtifactPath, Written, AttemptPc, Chain, StepOf, Reached;
    var at, xs := ys[0].now, ys[CLAIM_STEPS..];
    assert (ys + [x])[CLAIM_STEPS..] == xs + [x] && (ys + [x])[0] == ys[0];
    StepOfBound(a);
    if at >= Closes(t.day.day) {
      ChainPlaces([LateFailure, LateManifest], MissedSchedule, xs);
      LateWrites(t.pc, t.counter, a);
    } else {
      ReachedSnoc(t.day.day, xs, x, StepOf(a).value);
      AttemptWrites(t, at, xs, a);
    }
  }

  lemma {:induction false} ContentsGrow(t: Task, ys: seq<Input>, x: Input, a: Artifact)
    requires |ys| >= CLAIM_STEPS && Standing(t, ys) && StepOf(a).Some? && !a.Packet?
    ensures Due(t.day.day, ys, a) ==>
              Contents(ys[0].now, (ys + [x])[CLAIM_STEPS..], a) == Contents(ys[0].now, ys[CLAIM_STEPS..], a)
    ensures Written(t.pc, t.counter) == Makes(a) ==>
              && StepOf(a).value == |ys[CLAIM_STEPS..]|
              && NextOp(t).Create? && NextOp(t).payload == Contents(ys[0].now, (ys + [x])[CLAIM_STEPS..], a)
  {
    hide ArtifactPath, Written, AttemptPc, Chain, StepOf, Contents, NextOp;
    var at, xs := ys[0].now, ys[CLAIM_STEPS..];
    assert (ys + [x])[CLAIM_STEPS..] == xs + [x] && (ys + [x])[0] == ys[0];
    if Due(t.day.day, ys, a) {
      ContentsSnoc(at, xs, x, a);
    }
    if at >= Closes(t.day.day) {
      ChainPlaces([LateFailure, LateManifest], MissedSchedule, xs);
      LateWrites(t.pc, t.counter, a);
    } else {
      AttemptWrites(t, at, xs, a);
      if Written(t.pc, t.counter) == Makes(a) {
        PayloadIs(t, at, xs, x, a);
      }
    }
  }

  lemma {:induction false} ArtifactStep(objects: Objects, t: Task, ys: seq<Input>, x: Input, a: Artifact)
    requires Owner(objects, t) && |ys| >= CLAIM_STEPS && Standing(t, ys) && StepOf(a).Some?
    requires ArtifactTold(objects, t.day, ys, a)
    ensures ArtifactTold(TaskStep(objects, t, x).0, t.day, ys + [x], a)
  {
    OwnerStores(objects, t, x, a);
    DueGrows(t, ys, x, a);
    if !a.Packet? {
      ContentsGrow(t, ys, x, a);
    }
    assert (ys + [x])[0] == ys[0];
    hide Owner, NextOp, ArtifactPath, Written, TaskStep, Standing, StepOf, Due, Contents;
  }

  lemma {:induction false} FailurePayload(t: Task)
    ensures t.pc.WriteFailure? ==>
              NextOp(t).Create? && NextOp(t).payload == FailureDoc(t.pc.status, t.pc.stage, t.hashes.Keys)
    ensures t.pc.LateFailure? ==> NextOp(t).Create? && NextOp(t).payload == FailureDoc(MissedSchedule, GateStage, {})
    ensures Written(t.pc, t.counter) == Makes(Failure) <==> t.pc.WriteFailure? || t.pc.LateFailure?
  {
    hide ArtifactPath;
  }

  lemma {:induction false} LateChainPlaces(ws: seq<Input>)
    ensures Chain([LateFailure, LateManifest], MissedSchedule, ws).LateFailure? <==> ws == []
    ensures !Chain([LateFailure, LateManifest], MissedSchedule, ws).WriteFailure?
  {
    ChainPlaces([LateFailure, LateManifest], MissedSchedule, ws);
  }

  lemma {:induction false} FailureStep(objects: Objects, t: Task, ys: seq<Input>, x: Input)
    requires Owner(objects, t) && |ys| >= CLAIM_STEPS && Standing(t, ys) && Recorded(objects, t.day, ys)
    ensures FailureTold(TaskStep(objects, t, x).0, t.day, ys + [x])
  {
    hide Owner, NextOp, ArtifactPath, ClaimPath, Written, TaskStep, AttemptPc, Chain, ArtifactTold, ClaimTold,
      AttemptFailure, ProblemAt, FailureOf;
    var at, xs := ys[0].now, ys[CLAIM_STEPS..];
    assert (ys + [x])[CLAIM_STEPS..] == xs + [x] && (ys + [x])[0] == ys[0];
    OwnerPlace(objects, t);
    OwnerStores(objects, t, x, Failure);
    FailurePayload(t);
    if at >= Closes(t.day.day) {
      LateChainPlaces(xs);
      assert xs != [] ==> (xs + [x])[0] == xs[0];
    } else {
      AttemptPlaces(t.day.day, at, xs);
      AttemptFailureSnoc(t.day.day, xs, x);
    }
  }

  /** What an owner can still write once its failure record is stored. */
  lemma {:induction false} AfterFailure(t: Task, a: Artifact)
    requires MayHold(t.pc, t.counter, Failure) && Written(t.pc, t.counter) == Makes(a)
    ensures a == Manifest
  {
  }

  lemma {:induction false} OwnNames(objects: Objects, t: Task)
    requires Owner(objects, t)
    ensures forall n :: n in t.hashes <==> n in objects && Accepts(t.day, n)
    ensures ArtifactPath(t.day, Failure) in objects ==> MayHold(t.pc, t.counter, Failure)
    ensures ArtifactPath(t.day, Manifest) in objects ==> t.pc.Done?
  {
    ArtifactAccepted(t.day, Failure);
    hide ArtifactPath, ClaimPath, Accepts, MayHold, SealedComponents, PacketTruth, Outcome, Fetches, Reported;
  }

  lemma {:induction false} OwnerAdds(objects: Objects, t: Task, x: Input)
    requires Owner(objects, t)
    ensures var after := TaskStep(objects, t, x).0;
            if Written(t.pc, t.counter).Makes? && !x.storeError then
              NextOp(t).Create? && after == objects[ArtifactPath(t.day, Written(t.pc, t.counter).artifact) := NextOp(t).payload]
            else after == objects
  {
    OwnerPlace(objects, t);
    OwnerAnswer(objects, t, x);
    CreatesIsCreate(t);
    if Written(t.pc, t.counter).Makes? {
      OwnerNeverCollides(objects, t, Written(t.pc, t.counter).artifact);
    } else {
      WrittenIsNext(t, Start);
    }
    hide NextOp, ArtifactPath, ClaimPath, MayHold, Written, Owner, Accepts, Continue, Record, Creates;
  }

  lemma {:induction false} ListsStep(objects: Objects, t: Task, ys: seq<Input>, x: Input)
    requires Owner(objects, t) && |ys| >= CLAIM_STEPS && Standing(t, ys)
    requires FailureLists(objects, t.day, ys[0].now >= Closes(t.day.day))
    ensures FailureLists(TaskStep(objects, t, x).0, t.day, ys[0].now >= Closes(t.day.day))
  {
    hide Owner, NextOp, ArtifactPath, ClaimPath, Written, TaskStep, AttemptPc, Chain, MayHold, Accepts, Closes;
    var late := ys[0].now >= Closes(t.day.day);
    var failure, manifest := ArtifactPath(t.day, Failure), ArtifactPath(t.day, Manifest);
    OwnerAdds(objects, t, x);
    OwnNames(objects, t);
    OwnerPlace(objects, t);
    FailurePayload(t);
    if late {
      LateChainPlaces(ys[CLAIM_STEPS..]);
    } else {
      AttemptPlaces(t.day.day, ys[0].now, ys[CLAIM_STEPS..]);
    }
    if Written(t.pc, t.counter).Makes? && !x.storeError {
      var a := Written(t.pc, t.counter).artifact;
      OwnerNeverCollides(objects, t, a);
      if a != Failure && ArtifactPath(t.day, a) == failure {
        ArtifactPathInjective(t.day, a, Failure);
      }
      if failure in objects {
        AfterFailure(t, a);
      }
    }
  }

  // ----- the books' records -----

  lemma {:induction false} RawBookWrites(decision: int, zs: seq<Input>, counter: nat, n: nat)
    requires |zs| < BOOK_STEPS && 15 <= n <= 20 && counter == 14 + (if |zs| < 12 then (|zs| + 1) / 2 else 6)
    ensures Written(BookPc(|zs|, zs), counter) == Makes(RawKalshi(n)) <==> |zs| == 2 * (n - 15) + 1
    ensures Written(BookPc(|zs|, zs), counter) == Makes(DelayedBooks) <==> |zs| == 13
    ensures Written(BookPc(|zs|, zs), counter) != Makes(DelayedFailure)
    ensures Written(BookPc(|zs|, zs), counter) != Makes(StructuredLog)
  {
  }

  lemma {:induction false} BookPayload(t: Task, zs: seq<Input>)
    requires |zs| < BOOK_STEPS && t.pc == BookPc(|zs|, zs)
    ensures |zs| % 2 == 1 && |zs| < 12 ==> NextOp(t).Create? && NextOp(t).payload == RawDoc(zs[|zs| - 1].content)
    ensures |zs| == 13 ==> NextOp(t).Create? && NextOp(t).payload == DelayedDoc(zs[12].content)
  {
    hide ArtifactPath;
  }

  lemma {:induction false} RecordPayload(t: Task)
    ensures t.pc.WriteDelayedFailure? ==>
              Written(t.pc, t.counter) == Makes(DelayedFailure) && NextOp(t).Create? && NextOp(t).payload == DelayedFailureDoc(t.pc.status)
    ensures t.pc.WriteLog? ==>
              Written(t.pc, t.counter) == Makes(StructuredLog) && NextOp(t).Create? && NextOp(t).payload == LogDoc(t.pc.status, t.counter)
    ensures Recording(t.pc) || t.pc.Done? || t.pc.Raised? ==>
              && (Written(t.pc, t.counter) == Makes(DelayedFailure) ==> t.pc.WriteDelayedFailure?)
              && (Written(t.pc, t.counter) == Makes(StructuredLog) ==> t.pc.WriteLog?)
              && Written(t.pc, t.counter) != Makes(DelayedBooks)
              && forall n :: Written(t.pc, t.counter) != Makes(RawKalshi(n))
  {
    hide ArtifactPath;
  }

  lemma {:induction false} BookReachedSnoc(decision: int, zs: seq<Input>, x: Input, n: nat)
    requires n < BOOK_STEPS
    ensures BookReached(decision, zs + [x], n) <==>
            BookReached(decision, zs, n) || (|zs| == n && FirstBookFrom(decision, zs, 0) == None && !x.storeError)
  {
    hide BookProblemAt, FirstBookFrom;
    FirstBookSnoc(decision, zs, x, 0);
    assert forall i :: 0 <= i < |zs| ==> (zs + [x])[i] == zs[i];
  }

  lemma {:induction false} StoredSnoc(zs: seq<Input>, x: Input, from: nat, n: nat)
    requires n > 0 && from <= |zs| + 1
    ensures AllStored(zs + [x], from, n) <==>
            AllStored(zs, from, n) || (AllStored(zs, from, n - 1) && |zs| == from + n - 1 && !x.storeError)
  {
    assert forall i :: 0 <= i < |zs| ==> (zs + [x])[i] == zs[i];
    assert (zs + [x])[|zs|] == x;
  }

  /** Where a chain of records stands: at record `j` exactly when the `j` inputs so far were stored. */
  lemma {:induction false} ChainAt(records: seq<Pc>, status: Status, ws: seq<Input>, j: nat)
    requires j < |records| && IsChain(records, status)
    requires forall i, k :: 0 <= i < k < |records| ==> records[i] != records[k]
    ensures Chain(records, status, ws) == records[j] <==> |ws| == j && AllStored(ws, 0, j)
  {
    ChainNotDone(records, status);
    ChainCount(records, status, ws);
    hide Chain, IsChain, AllStored;
  }

  lemma {:induction false} ChainNotDone(records: seq<Pc>, status: Status)
    requires IsChain(records, status)
    ensures forall i :: 0 <= i < |records| ==> !records[i].Done? && !records[i].Raised?
  {
  }

  lemma {:induction false} ChainCount(records: seq<Pc>, status: Status, ws: seq<Input>)
    requires forall i :: 0 <= i < |records| ==> !records[i].Done? && !records[i].Raised?
    ensures var pc := Chain(records, status, ws);
            if |ws| < |records| && AllStored(ws, 0, |ws|) then pc == records[|ws|] else pc.Done? || pc.Raised?
  {
    if records != [] && ws != [] {
      if ws[0].storeError {
        assert !AllStored(ws, 0, |ws|);
      } else {
        ChainCount(records[1..], status, ws[1..]);
        StoredTail(ws, |ws|);
      }
    }
  }

  lemma {:induction false} StoredTail(ws: seq<Input>, n: nat)
    requires n > 0 && ws != [] && !ws[0].storeError
    ensures AllStored(ws[1..], 0, n - 1) <==> AllStored(ws, 0, n)
  {
    assert forall i :: 1 <= i < |ws| ==> ws[i] == ws[1..][i - 1];
    assert forall i :: 0 <= i < |ws| - 1 ==> ws[1..][i] == ws[i + 1];
  }

  lemma {:induction false} StoredFrom(xs: seq<Input>, from: nat, n: nat)
    requires from <= |xs|
    ensures AllStored(xs[from..], 0, n) <==> AllStored(xs, from, n)
  {
    assert forall i :: from <= i < |xs| ==> xs[i] == xs[from..][i - from];
    assert forall i :: 0 <= i < |xs| - from ==> xs[from..][i] == xs[i + from];
  }

  /** A step of the books adds to what they say is stored exactly what it writes. */
  ghost predicate BookGrows(t: Task, zs: seq<Input>, x: Input, a: Artifact) {
    BookDoc(t.decision, zs + [x], a) ==
    if BookDoc(t.decision, zs, a).Some? then BookDoc(t.decision, zs, a)
    else if Written(t.pc, t.counter) == Makes(a) && !x.storeError then
      (if NextOp(t).Create? then Some(NextOp(t).payload) else None)
    else None
  }

  lemma {:induction false} BookPcGrows(t: Task, zs: seq<Input>, x: Input, a: Artifact)
    requires t.pc == BooksPc(t.decision, zs) && t.counter == 14 + BookGets(t.decision, zs)
    requires a.DelayedBooks? || (a.RawKalshi? && 15 <= a.n <= 20)
    ensures BookGrows(t, zs, x, a)
  {
    hide BooksPc, BookProblemAt, FirstBookFrom, BookReached, NextOp, Written, Recording, AllStored, BookPc;
    assert forall i :: 0 <= i < |zs| ==> (zs + [x])[i] == zs[i];
    BooksKind(t.decision, zs);
    var n := if a.RawKalshi? then 2 * (a.n - 15) + 1 else 13;
    BookReachedSnoc(t.decision, zs, x, n);
    ReachedHas(t.decision, zs, n);
    if FirstBookFrom(t.decision, zs, 0) == None && |zs| < BOOK_STEPS {
      RawBookWrites(t.decision, zs, t.counter, if a.RawKalshi? then a.n else 15);
      BookPayload(t, zs);
    } else {
      RecordPayload(t);
    }
  }

  lemma {:induction false} ReachedHas(decision: int, zs: seq<Input>, n: nat)
    ensures BookReached(decision, zs, n) ==> |zs| > n
  {
  }

  /** Where the books' records stand after a first problem at `k`. */
  lemma {:induction false} FailedBooksAt(decision: int, zs: seq<Input>, k: nat)
    requires FirstBookFrom(decision, zs, 0) == Some(k)
    ensures var pc := BooksPc(decision, zs);
            var status := BookFailureOf(BookProblemAt(decision, k, zs[k]).value);
            && (pc.WriteDelayedFailure? <==> |zs| == k + 1)
            && (pc.WriteDelayedFailure? ==> pc.status == status)
            && (pc.WriteLog? <==> |zs| == k + 2 && AllStored(zs, k + 1, 1))
            && (pc.WriteLog? ==> pc.status == status)
  {
    hide Chain, IsChain, BookProblemAt, FirstBookFrom, Recording, Following, FailureOf, AllStored;
    var status := BookFailureOf(BookProblemAt(decision, k, zs[k]).value);
    var records := BookFailureRecords(status);
    RecordsChain(Problem(SealStage, OtherCode), status);
    var ws := zs[k + 1..];
    ChainAt(records, status, ws, 0);
    ChainAt(records, status, ws, 1);
    ChainPlaces(records, status, ws);
    NoneStored(ws);
    StoredFrom(zs, k + 1, 1);
    assert |records| == 3;
  }

  lemma {:induction false} NoneStored(ws: seq<Input>)
    ensures AllStored(ws, 0, 0)
  {
  }

  lemma {:induction false} CapturedBooksAt(decision: int, zs: seq<Input>)
    requires FirstBookFrom(decision, zs, 0) == None && |zs| >= BOOK_STEPS
    ensures var pc := BooksPc(decision, zs);
            && !pc.WriteDelayedFailure?
            && (pc.WriteLog? <==> |zs| == BOOK_STEPS)
            && (pc.WriteLog? ==> pc.status == Captured)
  {
    hide Chain, IsChain, BookProblemAt, FirstBookFrom, Recording, Following, FailureOf, AllStored;
    var records := CaptureRecords();
    RecordsChain(Problem(SealStage, OtherCode), Captured);
    var ws := zs[BOOK_STEPS..];
    ChainAt(records, Captured, ws, 0);
    ChainPlaces(records, Captured, ws);
    NoneStored(ws);
    assert |records| == 2;
  }

  lemma {:induction false} BookRecordGrows(t: Task, zs: seq<Input>, x: Input, a: Artifact)
    requires t.pc == BooksPc(t.decision, zs) && t.counter == 14 + BookGets(t.decision, zs)
    requires a.DelayedFailure? || a.StructuredLog?
    ensures BookGrows(t, zs, x, a)
  {
    hide BooksPc, BookProblemAt, FirstBookFrom, NextOp, Written, Recording, AllStored, BookPc, BookGets, BookFailureOf;
    assert forall i :: 0 <= i < |zs| ==> (zs + [x])[i] == zs[i];
    BooksKind(t.decision, zs);
    RecordPayload(t);
    FirstBookSnoc(t.decision, zs, x, 0);
    BookGetsSnoc(t.decision, zs, x);
    var k := FirstBookFrom(t.decision, zs, 0);
    if k.Some? {
      FailedBooksAt(t.decision, zs, k.value);
      StoredSnoc(zs, x, k.value + 1, 1);
      StoredSnoc(zs, x, k.value + 1, 2);
      NoneStoredFrom(zs, k.value + 1);
      StoredLength(zs, k.value + 1, 1);
      StoredLength(zs, k.value + 1, 2);
      ShorterStored(zs, k.value + 1);
    } else if |zs| < BOOK_STEPS {
      RawBookWrites(t.decision, zs, 14 + (if |zs| < 12 then (|zs| + 1) / 2 else 6), 15);
      CleanGets(t.decision, zs);
      StoredLength(zs, 14, 1);
      StoredLength(zs + [x], |zs| + 1, 1);
      StoredLength(zs + [x], |zs| + 1, 2);
      StoredLength(zs + [x], 14, 1);
    } else {
      CapturedBooksAt(t.decision, zs);
      CleanGets(t.decision, zs);
      StoredSnoc(zs, x, 14, 1);
      NoneStoredFrom(zs, 14);
      StoredLength(zs, 14, 1);
    }
  }

  lemma {:induction false} CleanGets(decision: int, zs: seq<Input>)
    requires FirstBookFrom(decision, zs, 0) == None
    ensures BookGets(decision, zs) == if |zs| < 12 then (|zs| + 1) / 2 else 6
  {
  }

  lemma {:induction false} NoneStoredFrom(zs: seq<Input>, from: nat)
    ensures AllStored(zs, from, 0) <==> |zs| >= from
  {
  }

  lemma {:induction false} ShorterStored(zs: seq<Input>, from: nat)
    ensures AllStored(zs, from, 2) ==> AllStored(zs, from, 1)
  {
  }

  lemma {:induction false} StoredLength(zs: seq<Input>, from: nat, n: nat)
    ensures AllStored(zs, from, n) ==> |zs| >= from + n
  {
  }

  /** No book is written before the packet is. */
  lemma {:induction false} NoBookBefore(t: Task, at: int, xs: seq<Input>, a: Artifact)
    requires Chronicle(t, at, xs) && IsBookArtifact(a)
    requires FirstProblem(t.day.day, xs).Some? || |xs| < STEPS
    ensures Written(t.pc, t.counter) != Makes(a)
  {
    hide Chain, ProblemAt, BooksPc, FirstFrom, StepPc;
    var k := FirstProblem(t.day.day, xs);
    if k.Some? {
      var p := ProblemAt(t.day.day, k.value, xs[k.value]).value;
      ChainPlaces(FailureRecords(p), FailureOf(p), xs[k.value + 1..]);
    } else {
      NoBookInAttempt(at, xs, a);
    }
  }

  lemma {:induction false} NoBookInAttempt(at: int, xs: seq<Input>, a: Artifact)
    requires |xs| < STEPS && IsBookArtifact(a)
    ensures Written(StepPc(at, |xs|, xs), Gets(|xs|)) != Makes(a)
  {
  }

  lemma {:induction false} NoBookYet(decision: int, a: Artifact)
    ensures BookDoc(decision, [], a) == None
  {
  }

  ghost predicate DueGrowsBy(t: Task, ys: seq<Input>, x: Input, a: Artifact)
    requires |ys| >= CLAIM_STEPS
  {
    BookDue(t.day.day, ys + [x], a) ==
    if BookDue(t.day.day, ys, a).Some? then BookDue(t.day.day, ys, a)
    else if Written(t.pc, t.counter) == Makes(a) && !x.storeError then
      (if NextOp(t).Create? then Some(NextOp(t).payload) else None)
    else None
  }

  lemma {:induction false} BookDueGrows(t: Task, ys: seq<Input>, x: Input, a: Artifact)
    requires |ys| >= CLAIM_STEPS && Standing(t, ys) && IsBookArtifact(a)
    ensures DueGrowsBy(t, ys, x, a)
  {
    hide Chain, ProblemAt, FirstFrom, BookDoc, NextOp, Written, AttemptPc, BookGets, Closes;
    var at, xs := ys[0].now, ys[CLAIM_STEPS..];
    assert (ys + [x])[CLAIM_STEPS..] == xs + [x] && (ys + [x])[0] == ys[0];
    if at >= Closes(t.day.day) {
      LateWritesNoBook(t, xs, a);
    } else {
      FirstSnoc(t.day.day, xs, x, 0);
      if FirstProblem(t.day.day, xs).Some? || |xs| < STEPS {
        NoBookBefore(t, at, xs, a);
        if |xs| + 1 == STEPS {
          assert (xs + [x])[STEPS..] == [];
          NoBookYet((xs + [x])[ASSEMBLY].now, a);
        }
      } else {
        var zs := xs[STEPS..];
        assert (xs + [x])[STEPS..] == zs + [x] && (xs + [x])[ASSEMBLY] == xs[ASSEMBLY];
        PastPacket(t.day.day, at, xs);
        if a.DelayedFailure? || a.StructuredLog? {
          BookRecordGrows(t, zs, x, a);
        } else {
          BookPcGrows(t, zs, x, a);
        }
      }
    }
  }

  lemma {:induction false} LateWritesNoBook(t: Task, xs: seq<Input>, a: Artifact)
    requires t.pc == Chain([LateFailure, LateManifest], MissedSchedule, xs) && IsBookArtifact(a)
    ensures Written(t.pc, t.counter) != Makes(a)
  {
    ChainPlaces([LateFailure, LateManifest], MissedSchedule, xs);
    hide Chain;
  }

  lemma {:induction false} BookToldStep(objects: Objects, t: Task, ys: seq<Input>, x: Input, a: Artifact)
    requires Owner(objects, t) && |ys| >= CLAIM_STEPS && Standing(t, ys) && IsBookArtifact(a)
    requires BookTold(objects, t.day, ys, a)
    ensures BookTold(TaskStep(objects, t, x).0, t.day, ys + [x], a)
  {
    hide Owner, NextOp, ArtifactPath, Written, TaskStep, Standing, BookDue;
    OwnerStores(objects, t, x, a);
    BookDueGrows(t, ys, x, a);
  }

  lemma {:induction false} StandingStep(objects: Objects, t: Task, ys: seq<Input>, x: Input)
    requires Owner(objects, t) && |ys| >= CLAIM_STEPS && Standing(t, ys)
    ensures Standing(TaskStep(objects, t, x).1, ys + [x])
  {
    hide Owner, Next, TaskStep, AttemptPc, Chain, FirstFrom;
    var at, xs := ys[0].now, ys[CLAIM_STEPS..];
    assert (ys + [x])[CLAIM_STEPS..] == xs + [x] && (ys + [x])[0] == ys[0];
    OwnerNext(objects, t, x);
    NextDay(t, x);
    if at >= Closes(t.day.day) {
      RecordsChain(Problem(SealStage, OtherCode), MissedSchedule);
      ChainStep(t, [LateFailure, LateManifest], MissedSchedule, xs, x);
    } else {
      ChronicleGoesOn(t, at, xs, x);
    }
  }

  lemma {:induction false} ClaimStays(objects: Objects, t: Task, ys: seq<Input>, x: Input)
    requires Owner(objects, t) && |ys| >= CLAIM_STEPS && ClaimTold(objects, t.day, ys)
    ensures ClaimTold(TaskStep(objects, t, x).0, t.day, ys + [x])
  {
    hide Owner, NextOp, ArtifactPath, ClaimPath, Written, Continue, ApplyOp;
    StoredFacts(objects, t, x.storeError);
    assert (ys + [x])[0] == ys[0];
  }

  lemma {:induction false} RecordedStep(objects: Objects, t: Task, ys: seq<Input>, x: Input)
    requires Owner(objects, t) && |ys| >= CLAIM_STEPS && Standing(t, ys) && Recorded(objects, t.day, ys)
    ensures Recorded(TaskStep(objects, t, x).0, t.day, ys + [x])
  {
    hide Owner, TaskStep, Standing, ArtifactTold, FailureTold, ClaimTold, FailureLists, BookTold, StepOf, IsBookArtifact, Closes;
    var after := TaskStep(objects, t, x).0;
    assert (ys + [x])[0] == ys[0];
    FailureStep(objects, t, ys, x);
    ListsStep(objects, t, ys, x);
    ClaimStays(objects, t, ys, x);
    forall a | StepOf(a).Some? ensures ArtifactTold(after, t.day, ys + [x], a) {
      ArtifactStep(objects, t, ys, x, a);
    }
    forall a | IsBookArtifact(a) ensures BookTold(after, t.day, ys + [x], a) {
      BookToldStep(objects, t, ys, x, a);
    }
  }

  /** One step of the claim holder. */
  lemma {:induction false} OwnerCourse(objects: Objects, t: Task, ys: seq<Input>, x: Input)
    requires Owner(objects, t) && Told(objects, t, ys)
    ensures var (after, u) := TaskStep(objects, t, x); Told(after, u, ys + [x])
  {
    hide Owner, Standing, Recorded, Visitor, NextOp, Continue, ApplyOp;
    OwnerNonempty(objects, t);
    OwnerStep(objects, t, x);
    var (after, u) := TaskStep(objects, t, x);
    OwnerNonempty(after, u);
    StandingStep(objects, t, ys, x);
    RecordedStep(objects, t, ys, x);
    DaysFixed(t, ApplyOp(objects, t.day, NextOp(t), x.storeError).1, x);
  }

  // ----- one step of a task without the claim -----

  lemma {:induction false} GateCourse(objects: Objects, t: Task, x: Input)
    requires Visitor(t) && t.pc.Gate? && Early(t, [])
    ensures var (after, u) := TaskStep(objects, t, x); after == objects && Visitor(u) && Early(u, [x])
  {
    hide ArtifactPath, ClaimPath, ContinueAcquiring, ContinueSealing, ContinueDelayed;
  }

  lemma {:induction false} UnderwaySnoc(day: nat, ys: seq<Input>, x: Input, late: bool, at: int)
    requires Underway(day, ys, late, at)
    ensures !x.storeError ==> Underway(day, ys + [x], late, at)
    ensures x.storeError ==> (ys + [x])[|ys|].storeError
  {
    assert (ys + [x])[0] == ys[0];
  }

  /** The five names looked for, in order. */
  function Probes(): seq<Artifact> {
    [Packet, Forecast, Weather, Market, Failure]
  }

  /** A probe ends the task exactly when its name is taken or the store fails; otherwise the next probe or the claim follows. */
  lemma {:induction false} Probed(objects: Objects, t: Task, x: Input)
    requires Visitor(t) && t.pc.CheckExisting? && t.pc.i <= 4
    ensures var (after, u) := TaskStep(objects, t, x);
            && after == objects && u.day == t.day && u.counter == t.counter && Visitor(u)
            && (u.pc == Raised <==> x.storeError)
            && (u.pc == Done(DuplicateClaim) <==> !x.storeError && ArtifactPath(t.day, Probes()[t.pc.i]) in objects)
            && (u.pc == Raised || u.pc == Done(DuplicateClaim)
                || u.pc == if t.pc.i < 4 then CheckExisting(t.pc.late, t.pc.at, t.pc.i + 1) else CreateClaim(t.pc.late, t.pc.at))
  {
    hide ArtifactPath, ClaimPath, Accepts, ContinueAcquiring, ContinueSealing, ContinueDelayed;
    assert ProbedArtifact(t.pc.i) == Probes()[t.pc.i];
    ArtifactAccepted(t.day, ProbedArtifact(t.pc.i));
    hide ProbedArtifact;
  }

  lemma {:induction false} ProbeCourse(objects: Objects, t: Task, ys: seq<Input>, x: Input)
    requires Visitor(t) && t.pc.CheckExisting? && Early(t, ys)
    ensures var (after, u) := TaskStep(objects, t, x); after == objects && Visitor(u) && Early(u, ys + [x])
  {
    hide Visitor, TaskStep, NoStoreError, Closes;
    Probed(objects, t, x);
    UnderwaySnoc(t.day.day, ys, x, t.pc.late, t.pc.at);
  }

  lemma {:induction false} EndedCourse(objects: Objects, t: Task, ys: seq<Input>, x: Input)
    requires Visitor(t) && (t.pc.Done? || t.pc.Raised?) && Early(t, ys)
    ensures var (after, u) := TaskStep(objects, t, x); after == objects && Visitor(u) && Early(u, ys + [x])
  {
    hide ArtifactPath, ClaimPath, ContinueAcquiring, ContinueSealing, ContinueDelayed;
    assert (ys + [x])[0] == ys[0];
    if t.pc.Raised? && Passed(t.day.day, ys[0].now) {
      var i :| 1 <= i < |ys| && i <= 6 && ys[i].storeError;
      assert (ys + [x])[i].storeError;
    }
  }

  lemma {:induction false} ClaimAnswered(objects: Objects, t: Task, x: Input)
    requires Visitor(t) && t.pc.CreateClaim?
    ensures var (after, u) := TaskStep(objects, t, x);
            var stored := !x.storeError && ClaimPath(t.day) !in objects;
            && u.day == t.day && u.counter == t.counter
            && (if stored then
                  && after == objects[ClaimPath(t.day) := ClaimDoc(t.pc.late, t.pc.at)]
                  && u.late == t.pc.late && u.pc == (if t.pc.late then LateFailure else CreateStart(t.pc.at))
                  && u.hashes != map[]
                else
                  && after == objects && Visitor(u)
                  && u.pc == (if x.storeError then Raised else Done(DuplicateClaim)))
  {
    hide NextOp, ArtifactPath, ClaimPath, Accepts, ContinueAcquiring, ContinueSealing, ContinueDelayed;
    var claim := ClaimPath(t.day);
    ClaimOp(t);
    if !x.storeError && claim !in objects {
      assert claim in TaskStep(objects, t, x).1.hashes;
    }
  }

  lemma {:induction false} ClaimOp(t: Task)
    requires t.pc.CreateClaim?
    ensures NextOp(t) == Create(ClaimPath(t.day), ClaimDoc(t.pc.late, t.pc.at)) && Accepts(t.day, ClaimPath(t.day))
  {
  }

  lemma {:induction false} FreshClaim(objects: Objects, t: Task, x: Input, a: Artifact)
    requires Visitor(t) && t.pc.CreateClaim? && Unclaimed(objects, t.day)
    requires !x.storeError && ClaimPath(t.day) !in objects
    ensures ArtifactPath(t.day, a) !in TaskStep(objects, t, x).0
  {
    hide ArtifactPath, ClaimPath, Accepts, TaskStep;
    ArtifactAccepted(t.day, a);
    ClaimAnswered(objects, t, x);
  }

  lemma {:induction false} RecordedAtFirst(objects: Objects, day: Day, ys: seq<Input>)
    requires |ys| == CLAIM_STEPS && ClaimTold(objects, day, ys)
    requires forall a :: ArtifactPath(day, a) !in objects
    ensures Recorded(objects, day, ys)
  {
    hide ArtifactPath, ClaimPath, Closes, Accepts, FirstFrom, BookDoc, Contents;
    assert ys[CLAIM_STEPS..] == [];
    NothingYet(day.day, 0);
  }

  /** The claim holder's story begins. */
  lemma {:induction false} ClaimCourse(objects: Objects, t: Task, ys: seq<Input>, x: Input)
    requires Visitor(t) && t.pc.CreateClaim? && Early(t, ys) && Unclaimed(objects, t.day)
    ensures var (after, u) := TaskStep(objects, t, x);
            && u.day == t.day && Told(after, u, ys + [x])
            && (after == objects || (ClaimPath(t.day) !in objects && !Visitor(u)))
  {
    hide TaskStep, ArtifactPath, ClaimPath, Closes, AttemptPc, Chain, FirstFrom, Accepts, Recorded, NoStoreError, BookGets;
    ClaimAnswered(objects, t, x);
    UnderwaySnoc(t.day.day, ys, x, t.pc.late, t.pc.at);
    var (after, u) := TaskStep(objects, t, x);
    var zs := ys + [x];
    assert zs[CLAIM_STEPS..] == [] && zs[0] == ys[0];
    if !x.storeError && ClaimPath(t.day) !in objects {
      forall a ensures ArtifactPath(t.day, a) !in after {
        FreshClaim(objects, t, x, a);
      }
      NothingYet(t.day.day, t.pc.at);
      RecordedAtFirst(after, t.day, zs);
      NothingFailed(ys, x);
    } else {
      hide Standing;
    }
  }

  lemma {:induction false} NothingFailed(ys: seq<Input>, x: Input)
    requires NoStoreError(ys) && !x.storeError
    ensures forall i :: 1 <= i < |ys| + 1 ==> !(ys + [x])[i].storeError
  {
  }

  lemma {:induction false} NothingYet(day: nat, at: int)
    ensures AttemptPc(day, at, []) == CreateStart(at) && FirstProblem(day, []) == None
    ensures Chain([LateFailure, LateManifest], MissedSchedule, []) == LateFailure
  {
  }

  /** One step of a task without the claim. */
  lemma {:induction false} VisitorCourse(objects: Objects, t: Task, ys: seq<Input>, x: Input)
    requires Visitor(t) && Told(objects, t, ys) && Unclaimed(objects, t.day)
    ensures var (after, u) := TaskStep(objects, t, x);
            && Told(after, u, ys + [x])
            && (after == objects || ClaimPath(t.day) !in objects)
  {
    if t.pc.Gate? {
      GateCourse(objects, t, x);
      assert ys + [x] == [x];
    } else if t.pc.CheckExisting? {
      ProbeCourse(objects, t, ys, x);
    } else if t.pc.CreateClaim? {
      ClaimCourse(objects, t, ys, x);
    } else {
      EndedCourse(objects, t, ys, x);
    }
    hide TaskStep, Early, Standing, Recorded, ClaimPath;
  }

  // ----- whole runs -----

  lemma {:induction false} RecordedElsewhere(a: Objects, b: Objects, p: Day, ys: seq<Input>)
    requires |ys| >= CLAIM_STEPS && Recorded(a, p, ys) && Restrict(a, p) == Restrict(b, p)
    ensures Recorded(b, p, ys)
  {
    SameNames(a, b, p);
    hide Restrict, Accepts, ArtifactPath, ClaimPath, Due, Contents, FailureDue, StepOf, BookDue, IsBookArtifact;
  }

  /** Every task's inputs so far tell its story. */
  ghost predicate AllTold(w: World, hs: seq<seq<Input>>) {
    && |hs| == |w.tasks|
    && (forall i :: 0 <= i < |hs| ==> Told(w.objects, w.tasks[i], hs[i]))
  }

  ghost predicate AllEvidence(w: World) {
    forall p: Day :: EvidenceInvariant(w, p)
  }

  lemma {:induction false} MoverTold(w: World, hs: seq<seq<Input>>, e: Event)
    requires AllEvidence(w) && AllTold(w, hs) && e.task < |w.tasks|
    ensures var v := Step(w, e);
            && Told(v.objects, v.tasks[e.task], hs[e.task] + [e.input])
            && (Visitor(w.tasks[e.task]) ==> v.objects == w.objects || ClaimPath(w.tasks[e.task].day) !in w.objects)
  {
    var t := w.tasks[e.task];
    assert EvidenceInvariant(w, t.day);
    hide TaskStep, Told, Owner, ClaimPath, Visitor;
    if Visitor(t) {
      VisitorCourse(w.objects, t, hs[e.task], e.input);
    } else {
      OwnerCourse(w.objects, t, hs[e.task], e.input);
    }
  }

  lemma {:induction false} OtherTold(w: World, hs: seq<seq<Input>>, e: Event, i: nat)
    requires AllEvidence(w) && AllTold(w, hs) && e.task < |w.tasks| && i < |w.tasks| && i != e.task
    ensures Told(Step(w, e).objects, w.tasks[i], hs[i])
  {
    var t, u, v := w.tasks[e.task], w.tasks[i], Step(w, e);
    assert Told(w.objects, u, hs[i]);
    if !Visitor(u) {
      assert EvidenceInvariant(w, u.day);
      OwnerNonempty(w.objects, u);
      if t.day == u.day {
        if !Visitor(t) {
          OwnerNonempty(w.objects, t);
        }
        MoverTold(w, hs, e);
      } else {
        OpIsLocal(w.objects, w.objects, u.day, t.day, NextOp(t), e.input.storeError);
        RecordedElsewhere(w.objects, v.objects, u.day, hs[i]);
      }
    }
    hide NextOp, Continue, ApplyOp, Owner, ClaimPath, Visitor, Standing, Recorded, Restrict, Early;
  }

  lemma {:induction false} StoryStep(w: World, hs: seq<seq<Input>>, e: Event)
    requires AllEvidence(w) && AllTold(w, hs) && e.task < |w.tasks|
    ensures AllEvidence(Step(w, e)) && AllTold(Step(w, e), hs[e.task := hs[e.task] + [e.input]])
  {
    forall p: Day ensures EvidenceInvariant(Step(w, e), p) {
      InvariantStep(w, e, p);
    }
    MoverTold(w, hs, e);
    forall i | 0 <= i < |w.tasks| && i != e.task ensures Told(Step(w, e).objects, w.tasks[i], hs[i]) {
      OtherTold(w, hs, e, i);
    }
    hide TaskStep, Told, EvidenceInvariant;
  }

  /** The histories after one event; an event of no task changes nothing. */
  function Heard(hs: seq<seq<Input>>, e: Event): seq<seq<Input>> {
    if e.task < |hs| then hs[e.task := hs[e.task] + [e.input]] else hs
  }

  lemma {:induction false} HeardOwn(hs: seq<seq<Input>>, e: Event, rest: seq<Event>, i: nat)
    requires i < |hs|
    ensures |Heard(hs, e)| == |hs|
    ensures Heard(hs, e)[i] + OwnInputs(rest, i) == hs[i] + OwnInputs([e] + rest, i)
  {
    var own := OwnInputs(rest, i);
    assert ([e] + rest)[1..] == rest && [] + own == own;
    assert hs[i] + ([e.input] + own) == (hs[i] + [e.input]) + own;
  }

  lemma {:induction false} Story(w: World, hs: seq<seq<Input>>, schedule: seq<Event>, i: nat)
    requires AllEvidence(w) && AllTold(w, hs) && i < |w.tasks|
    ensures var v := Run(w, schedule);
            i < |v.tasks| && v.tasks[i].day == w.tasks[i].day && Told(v.objects, v.tasks[i], hs[i] + OwnInputs(schedule, i))
    decreases |schedule|
  {
    hide AllEvidence, Told, Step;
    if schedule == [] {
      assert hs[i] + [] == hs[i];
    } else {
      var e, rest := schedule[0], schedule[1..];
      hide OwnInputs;
      StepKeepsDays(w, e);
      if e.task < |w.tasks| {
        StoryStep(w, hs, e);
      }
      HeardOwn(hs, e, rest, i);
      assert [e] + rest == schedule;
      Story(Step(w, e), Heard(hs, e), rest, i);
    }
  }

  lemma {:induction false} StepKeepsDays(w: World, e: Event)
    ensures var v := Step(w, e);
            && |v.tasks| == |w.tasks| && (forall i :: 0 <= i < |w.tasks| ==> v.tasks[i].day == w.tasks[i].day)
            && (e.task >= |w.tasks| ==> v == w)
  {
    if e.task < |w.tasks| {
      var t := w.tasks[e.task];
      DaysFixed(t, ApplyOp(w.objects, t.day, NextOp(t), e.input.storeError).1, e.input);
    }
    hide NextOp, ApplyOp, Continue, Record;
  }

  /** At every moment of every run a task stands where its own inputs put it, and its records are what they say. */
  lemma {:induction false} OwnCourse(days: seq<Day>, schedule: seq<Event>, i: nat)
    requires i < |days|
    ensures var w := Run(Beginning(days), schedule);
            && |w.tasks| > i && w.tasks[i].day == days[i]
            && Told(w.objects, w.tasks[i], OwnInputs(schedule, i))
            && EvidenceInvariant(w, days[i])
  {
    var w := Beginning(days);
    var hs := seq(|days|, _ => []);
    forall p: Day ensures EvidenceInvariant(w, p) {
    }
    forall i | 0 <= i < |hs| ensures Told(w.objects, w.tasks[i], hs[i]) {
      assert w.tasks[i] == Fresh(days[i]) && hs[i] == [];
    }
    Story(w, hs, schedule, i);
    EvidenceAlways(days, schedule, days[i]);
    assert [] + OwnInputs(schedule, i) == OwnInputs(schedule, i);
    hide Run, Owner, Standing, Recorded;
  }
}
