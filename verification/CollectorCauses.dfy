/**
 Why a city and date ended as it did, over every run: exactly which inputs of the claim holder lead to each stored
 artifact, to the failure record with its status and stage, and to each returned status.
*/
module CollectorCauses {
  import opened CollectorKeys
  import opened Collector
  import opened CollectorEvidence
  import opened CollectorCourse
  import opened CollectorStory

  // ----- what the runs say -----

  /** Step by step, an attempt that meets no problem and stores everything. */
  predicate CleanAttempt(day: nat, xs: seq<Input>) {
    && |xs| >= 39
    && !xs[0].storeError && xs[0].now < Closes(day)
    && xs[1].fault == NoFault && xs[1].later < Closes(day)
    && xs[2].fault == NoFault && !xs[3].storeError && xs[4].fault == NoFault
    && xs[5].now < Closes(day)
    && (forall j :: 3 <= j < 17 ==> xs[2 * j].fault == NoFault)
    && (forall j :: 3 <= j < 17 ==> !xs[2 * j + 1].storeError && xs[2 * j + 1].fault == NoFault)
    && xs[34].fault == NoFault
    && !xs[35].storeError && !xs[36].storeError && !xs[37].storeError && !xs[38].storeError
  }

  /** The same for the ancillary books. */
  predicate CleanBooks(decision: int, zs: seq<Input>) {
    && |zs| >= 14
    && (forall j :: 0 <= j < 6 ==> zs[2 * j].now <= decision + 330_000_000 && zs[2 * j].fault == NoFault)
    && (forall j :: 0 <= j < 6 ==> !zs[2 * j + 1].storeError && zs[2 * j + 1].fault == NoFault)
    && zs[12].now <= decision + 330_000_000
    && !zs[13].storeError
  }

  lemma {:induction false} CleanAttemptAt(day: nat, xs: seq<Input>, n: nat)
    requires CleanAttempt(day, xs) && n < STEPS
    ensures ProblemAt(day, n, xs[n]) == None
  {
    assert n == 2 * (n / 2) || n == 2 * (n / 2) + 1;
  }

  lemma {:induction false} CleanBooksAt(decision: int, zs: seq<Input>, n: nat)
    requires CleanBooks(decision, zs) && n < BOOK_STEPS
    ensures BookProblemAt(decision, n, zs[n]) == None
  {
    assert n == 2 * (n / 2) || n == 2 * (n / 2) + 1;
  }

  lemma {:induction false} CleanAttemptExactly(day: nat, xs: seq<Input>)
    ensures CleanAttempt(day, xs) <==> |xs| >= STEPS && FirstProblem(day, xs) == None
  {
    var k := FirstProblem(day, xs);
    if |xs| >= STEPS && k == None {
      forall n | 0 <= n < STEPS ensures ProblemAt(day, n, xs[n]) == None {
      }
      forall j | 3 <= j < 17
        ensures xs[2 * j].fault == NoFault && !xs[2 * j + 1].storeError && xs[2 * j + 1].fault == NoFault {
        assert ProblemAt(day, 2 * j, xs[2 * j]) == None && ProblemAt(day, 2 * j + 1, xs[2 * j + 1]) == None;
      }
      assert ProblemAt(day, 0, xs[0]) == None && ProblemAt(day, 1, xs[1]) == None && ProblemAt(day, 2, xs[2]) == None;
    } else if CleanAttempt(day, xs) && k.Some? {
      CleanAttemptAt(day, xs, k.value);
    }
  }

  lemma {:induction false} CleanBooksExactly(decision: int, zs: seq<Input>)
    ensures CleanBooks(decision, zs) <==> |zs| >= BOOK_STEPS && FirstBookFrom(decision, zs, 0) == None
  {
    var k := FirstBookFrom(decision, zs, 0);
    if |zs| >= BOOK_STEPS && k == None {
      forall j | 0 <= j < 6
        ensures zs[2 * j].now <= decision + 330_000_000 && zs[2 * j].fault == NoFault
        ensures !zs[2 * j + 1].storeError && zs[2 * j + 1].fault == NoFault {
        assert BookProblemAt(decision, 2 * j, zs[2 * j]) == None && BookProblemAt(decision, 2 * j + 1, zs[2 * j + 1]) == None;
      }
      assert BookProblemAt(decision, 12, zs[12]) == None && BookProblemAt(decision, 13, zs[13]) == None;
    } else if CleanBooks(decision, zs) && k.Some? {
      CleanBooksAt(decision, zs, k.value);
    }
  }

  /** The first step with a problem, and what problem. */
  predicate FirstAt(day: nat, xs: seq<Input>, k: nat, p: Problem) {
    && k < STEPS && k < |xs| && ProblemAt(day, k, xs[k]) == Some(p)
    && (forall j :: 0 <= j < k ==> ProblemAt(day, j, xs[j]) == None)
  }

  lemma {:induction false} FirstAtExactly(day: nat, xs: seq<Input>, k: nat, p: Problem)
    ensures FirstAt(day, xs, k, p) <==> FirstProblem(day, xs) == Some(k) && ProblemAt(day, k, xs[k]) == Some(p)
  {
    hide ProblemAt;
    var f := FirstProblem(day, xs);
    if FirstAt(day, xs, k, p) {
      assert f.Some? ==> f.value >= k;
      assert f.Some? ==> f.value <= k;
    }
  }

  predicate FirstBookAt(decision: int, zs: seq<Input>, k: nat, code: ErrorCode) {
    && k < BOOK_STEPS && k < |zs| && BookProblemAt(decision, k, zs[k]) == Some(code)
    && (forall j :: 0 <= j < k ==> BookProblemAt(decision, j, zs[j]) == None)
  }

  lemma {:induction false} FirstBookAtExactly(decision: int, zs: seq<Input>, k: nat, code: ErrorCode)
    ensures FirstBookAt(decision, zs, k, code) <==>
            FirstBookFrom(decision, zs, 0) == Some(k) && BookProblemAt(decision, k, zs[k]) == Some(code)
  {
    hide BookProblemAt;
    var f := FirstBookFrom(decision, zs, 0);
    if FirstBookAt(decision, zs, k, code) {
      assert f.Some? ==> f.value >= k;
      assert f.Some? ==> f.value <= k;
    }
  }

  lemma {:induction false} ChainEnds(records: seq<Pc>, status: Status, ws: seq<Input>)
    requires forall i :: 0 <= i < |records| ==> !records[i].Done?
    ensures Chain(records, status, ws).Done? <==> AllStored(ws, 0, |records|)
    ensures Chain(records, status, ws).Done? ==> Chain(records, status, ws) == Done(status)
  {
    if records != [] && ws != [] && !ws[0].storeError {
      ChainEnds(records[1..], status, ws[1..]);
      StoredTail(ws, |records|);
    }
  }

  /** A task of the run that created the claim, and its inputs. */
  ghost predicate Holder(w: World, schedule: seq<Event>, i: nat, ys: seq<Input>) {
    i < |w.tasks| && w.tasks[i].hashes != map[] && ys == OwnInputs(schedule, i)
  }

  /**
   Over every run: an artifact of a claim holder's attempt is stored exactly when the holder was timely, met no
   problem at any earlier step and its own create was stored; and it holds what its inputs brought.
  */
  lemma {:induction false} ArtifactExactly(days: seq<Day>, schedule: seq<Event>, i: nat, ys: seq<Input>, a: Artifact)
    requires i < |days| && Holder(Run(Beginning(days), schedule), schedule, i, ys) && StepOf(a).Some?
    ensures |ys| >= CLAIM_STEPS && Opens(days[i].day) <= ys[0].now
    ensures var objects, name := Run(Beginning(days), schedule).objects, ArtifactPath(days[i], a);
            var xs, n := ys[CLAIM_STEPS..], StepOf(a).value;
            && (name in objects <==>
                  && ys[0].now < Closes(days[i].day)
                  && |xs| > n && !xs[n].storeError
                  && (forall j :: 0 <= j < n ==> ProblemAt(days[i].day, j, xs[j]) == None))
            && (name in objects && !a.Packet? ==> objects[name] == Contents(ys[0].now, xs, a))
  {
    hide Run, ArtifactPath, Owner, ProblemAt, StepOf, Contents, Chronicle, FailureTold, ClaimTold, Chain, Closes;
    var w := Run(Beginning(days), schedule);
    OwnCourse(days, schedule, i);
    StepOfBound(a);
    assert !Visitor(w.tasks[i]) && ArtifactTold(w.objects, days[i], ys, a);
    ReachedExactly(days[i].day, ys[CLAIM_STEPS..], StepOf(a).value);
  }

  lemma {:induction false} ReachedExactly(day: nat, xs: seq<Input>, n: nat)
    requires n < STEPS
    ensures Reached(day, xs, n) <==>
            |xs| > n && !xs[n].storeError && (forall j :: 0 <= j < n ==> ProblemAt(day, j, xs[j]) == None)
  {
    hide ProblemAt;
    var k := FirstProblem(day, xs);
    assert forall j :: 0 <= j < |xs| && j < STEPS && (k.Some? ==> j < k.value) ==> ProblemAt(day, j, xs[j]) == None;
  }

  /** Over every run a packet is stored exactly when its holder was timely and its attempt clean at every step. */
  lemma {:induction false} PacketExactly(days: seq<Day>, schedule: seq<Event>, i: nat, ys: seq<Input>)
    requires i < |days| && Holder(Run(Beginning(days), schedule), schedule, i, ys)
    ensures |ys| >= CLAIM_STEPS
    ensures ArtifactPath(days[i], Packet) in Run(Beginning(days), schedule).objects <==>
            ys[0].now < Closes(days[i].day) && CleanAttempt(days[i].day, ys[CLAIM_STEPS..])
  {
    hide Run, ArtifactPath, Owner, ProblemAt, Chronicle, FailureTold, ClaimTold, Chain, Closes, CleanAttempt, FirstFrom;
    var w := Run(Beginning(days), schedule);
    OwnCourse(days, schedule, i);
    assert !Visitor(w.tasks[i]) && ArtifactTold(w.objects, days[i], ys, Packet);
    var xs := ys[CLAIM_STEPS..];
    CleanAttemptExactly(days[i].day, xs);
    PacketReached(days[i].day, xs);
  }

  lemma {:induction false} PacketReached(day: nat, xs: seq<Input>)
    ensures Reached(day, xs, STEPS - 1) <==> |xs| >= STEPS && FirstProblem(day, xs) == None
  {
    var k := FirstProblem(day, xs);
    if |xs| >= STEPS {
      assert k == None ==> ProblemAt(day, STEPS - 1, xs[STEPS - 1]) == None;
    }
  }

  /** Without a claim holder there is no packet and no failure record. */
  lemma {:induction false} RecordsHaveHolder(days: seq<Day>, schedule: seq<Event>, p: Day, a: Artifact) returns (i: nat)
    requires ArtifactPath(p, a) in Run(Beginning(days), schedule).objects
    ensures i < |days| && days[i] == p
    ensures Holder(Run(Beginning(days), schedule), schedule, i, OwnInputs(schedule, i))
  {
    hide Run, ArtifactPath, ClaimPath, Accepts, Owner, OwnInputs;
    EvidenceAlways(days, schedule, p);
    ArtifactAccepted(p, a);
    var w := Run(Beginning(days), schedule);
    i :| 0 <= i < |w.tasks| && w.tasks[i].day == p && w.tasks[i].hashes != map[];
    RunKeepsTasks(Beginning(days), schedule);
  }

  lemma {:induction false} RunKeepsTasks(w: World, schedule: seq<Event>)
    ensures var v := Run(w, schedule);
            |v.tasks| == |w.tasks| && forall i :: 0 <= i < |w.tasks| ==> v.tasks[i].day == w.tasks[i].day
    decreases |schedule|
  {
    hide Step;
    if schedule != [] {
      StepKeepsDays(w, schedule[0]);
      RunKeepsTasks(Step(w, schedule[0]), schedule[1..]);
    }
  }

  /**
   Over every run: the failure record of a claim holder states a status and a stage exactly when they are those of
   the first problem of its attempt, or the missed schedule at the gate if the holder came late.
  */
  lemma {:induction false} FailureExactly(
    days: seq<Day>, schedule: seq<Event>, i: nat, ys: seq<Input>, status: Status, stage: Stage
  )
    requires i < |days| && Holder(Run(Beginning(days), schedule), schedule, i, ys)
    ensures |ys| >= CLAIM_STEPS
    ensures var objects, name := Run(Beginning(days), schedule).objects, ArtifactPath(days[i], Failure);
            var day, xs := days[i].day, ys[CLAIM_STEPS..];
            (name in objects && objects[name].FailureDoc? && objects[name].status == status && objects[name].stage == stage)
            <==>
            if ys[0].now >= Closes(day) then AllStored(xs, 0, 1) && status == MissedSchedule && stage == GateStage
            else exists k: nat, p :: FirstAt(day, xs, k, p) && AllStored(xs, k + 1, 1) && status == FailureOf(p) && stage == p.stage
  {
    hide Run, ArtifactPath, Owner, ProblemAt, Chronicle, ArtifactTold, ClaimTold, Chain, Closes, FirstFrom, FailureOf;
    var w := Run(Beginning(days), schedule);
    OwnCourse(days, schedule, i);
    assert !Visitor(w.tasks[i]) && FailureTold(w.objects, days[i], ys);
    FailureDueExactly(days[i].day, ys[CLAIM_STEPS..], status, stage);
  }

  lemma {:induction false} FailureDueExactly(day: nat, xs: seq<Input>, status: Status, stage: Stage)
    ensures AttemptFailure(day, xs) == Some((status, stage)) <==>
            exists k: nat, p :: FirstAt(day, xs, k, p) && AllStored(xs, k + 1, 1) && status == FailureOf(p) && stage == p.stage
  {
    hide ProblemAt, FirstFrom, FailureOf, FirstAt;
    var f := FirstProblem(day, xs);
    if f.Some? {
      FirstAtExactly(day, xs, f.value, ProblemAt(day, f.value, xs[f.value]).value);
    }
    forall k: nat, p | FirstAt(day, xs, k, p) ensures f == Some(k) && ProblemAt(day, k, xs[k]) == Some(p) {
      FirstAtExactly(day, xs, k, p);
    }
  }

  /** The failure record also lists what had been stored before it, and the claim says when it was made and whether late. */
  lemma {:induction false} FailureListing(days: seq<Day>, schedule: seq<Event>, i: nat, ys: seq<Input>)
    requires i < |days| && Holder(Run(Beginning(days), schedule), schedule, i, ys)
    ensures |ys| >= CLAIM_STEPS
    ensures FailureLists(Run(Beginning(days), schedule).objects, days[i], ys[0].now >= Closes(days[i].day))
    ensures ClaimTold(Run(Beginning(days), schedule).objects, days[i], ys)
  {
    hide Run, Owner, Standing, ArtifactTold, FailureTold, BookTold, FailureLists, ClaimTold, Closes;
    var w := Run(Beginning(days), schedule);
    OwnCourse(days, schedule, i);
    assert !Visitor(w.tasks[i]);
  }

  /**
   Over every run: the raw responses, the snapshot, the failure note and the log of the ancillary books are stored exactly
   when a clean attempt and the books' own inputs say so, and hold what those inputs brought.
  */
  lemma {:induction false} BooksExactly(days: seq<Day>, schedule: seq<Event>, i: nat, ys: seq<Input>, a: Artifact)
    requires i < |days| && Holder(Run(Beginning(days), schedule), schedule, i, ys) && IsBookArtifact(a)
    ensures |ys| >= CLAIM_STEPS
    ensures var objects, name := Run(Beginning(days), schedule).objects, ArtifactPath(days[i], a);
            var xs := ys[CLAIM_STEPS..];
            if ys[0].now < Closes(days[i].day) && CleanAttempt(days[i].day, xs) then
              var doc := BookDoc(xs[ASSEMBLY].now, xs[STEPS..], a);
              (name in objects <==> doc.Some?) && (doc.Some? ==> objects[name] == doc.value)
            else name !in objects
  {
    hide Run, ArtifactPath, Owner, Standing, ArtifactTold, FailureTold, FailureLists, ClaimTold, Closes, IsBookArtifact, BookDoc,
      CleanAttempt, FirstFrom;
    var w := Run(Beginning(days), schedule);
    OwnCourse(days, schedule, i);
    assert !Visitor(w.tasks[i]) && BookTold(w.objects, days[i], ys, a);
    CleanAttemptExactly(days[i].day, ys[CLAIM_STEPS..]);
  }

  // ----- the status a run returns -----

  lemma {:induction false} BooksDone(decision: int, zs: seq<Input>)
    ensures BooksPc(decision, zs) == Done(Captured) <==> CleanBooks(decision, zs) && AllStored(zs, BOOK_STEPS, 2)
    ensures forall status :: BooksPc(decision, zs) == Done(status) && status != Captured ==>
              exists k: nat, code :: FirstBookAt(decision, zs, k, code) && AllStored(zs, k + 1, 3) && status == BookFailureOf(code)
    ensures forall k: nat, code :: FirstBookAt(decision, zs, k, code) && AllStored(zs, k + 1, 3) ==>
              BooksPc(decision, zs) == Done(BookFailureOf(code))
  {
    hide Chain, BookProblemAt, FirstBookFrom, FirstBookAt, BookPc, CleanBooks, AllStored, FirstBookFrom;
    CleanBooksExactly(decision, zs);
    var k := FirstBookFrom(decision, zs, 0);
    forall j: nat, code | FirstBookAt(decision, zs, j, code) ensures k == Some(j) && BookProblemAt(decision, j, zs[j]) == Some(code) {
      FirstBookAtExactly(decision, zs, j, code);
    }
    if k.Some? {
      var code := BookProblemAt(decision, k.value, zs[k.value]).value;
      FirstBookAtExactly(decision, zs, k.value, code);
      ChainEnds(BookFailureRecords(BookFailureOf(code)), BookFailureOf(code), zs[k.value + 1..]);
      StoredFrom(zs, k.value + 1, 3);
    } else if |zs| < BOOK_STEPS {
      BookPcPlace(zs);
      StoredLength(zs, BOOK_STEPS, 2);
    } else {
      ChainEnds(CaptureRecords(), Captured, zs[BOOK_STEPS..]);
      StoredFrom(zs, BOOK_STEPS, 2);
    }
  }

  lemma {:induction false} BookPcPlace(zs: seq<Input>)
    requires |zs| < BOOK_STEPS
    ensures !BookPc(|zs|, zs).Done?
  {
  }

  lemma {:induction false} StepPcPlace(at: int, xs: seq<Input>)
    requires |xs| < STEPS
    ensures !StepPc(at, |xs|, xs).Done?
  {
  }

  lemma {:induction false} AttemptDone(day: nat, at: int, xs: seq<Input>, status: Status)
    ensures AttemptPc(day, at, xs) == Done(status) <==>
            || (exists k: nat, p :: FirstAt(day, xs, k, p) && AllStored(xs, k + 1, 2) && status == FailureOf(p))
            || (CleanAttempt(day, xs) && BooksPc(xs[ASSEMBLY].now, xs[STEPS..]) == Done(status))
  {
    hide Chain, ProblemAt, FirstFrom, FirstAt, StepPc, CleanAttempt, AllStored, BooksPc, FailureOf;
    CleanAttemptExactly(day, xs);
    var f := FirstProblem(day, xs);
    forall k: nat, p | FirstAt(day, xs, k, p) ensures f == Some(k) && ProblemAt(day, k, xs[k]) == Some(p) {
      FirstAtExactly(day, xs, k, p);
    }
    if f.Some? {
      var p := ProblemAt(day, f.value, xs[f.value]).value;
      FirstAtExactly(day, xs, f.value, p);
      ChainEnds(FailureRecords(p), FailureOf(p), xs[f.value + 1..]);
      StoredFrom(xs, f.value + 1, 2);
    } else if |xs| < STEPS {
      StepPcPlace(at, xs);
    }
  }

  /**
   Over every run a claim holder returns exactly: CAPTURED after a clean attempt, clean books and both last records;
   the books' failure after a clean attempt whose books met a first problem; the attempt's failure after its first
   problem; MISSED_SCHEDULE when it came late. Each once all records it has to write are stored.
  */
  lemma {:induction false} ReturnedExactly(days: seq<Day>, schedule: seq<Event>, i: nat, ys: seq<Input>, status: Status)
    requires i < |days| && Holder(Run(Beginning(days), schedule), schedule, i, ys)
    ensures |ys| >= CLAIM_STEPS && i < |Run(Beginning(days), schedule).tasks|
    ensures var day, xs := days[i].day, ys[CLAIM_STEPS..];
            Run(Beginning(days), schedule).tasks[i].pc == Done(status) <==>
            if ys[0].now >= Closes(day) then status == MissedSchedule && AllStored(xs, 0, 2)
            else
              || (exists k: nat, p :: FirstAt(day, xs, k, p) && AllStored(xs, k + 1, 2) && status == FailureOf(p))
              || (CleanAttempt(day, xs) &&
                    var decision, zs := xs[ASSEMBLY].now, xs[STEPS..];
                    || (status == Captured && CleanBooks(decision, zs) && AllStored(zs, BOOK_STEPS, 2))
                    || (exists k: nat, code ::
                          FirstBookAt(decision, zs, k, code) && AllStored(zs, k + 1, 3) && status == BookFailureOf(code)))
  {
    hide Run, Owner, ProblemAt, Recorded, Chain, Closes, FirstAt, FirstBookAt, CleanAttempt, CleanBooks, AllStored,
      BooksPc, AttemptPc, FirstFrom;
    var w := Run(Beginning(days), schedule);
    OwnCourse(days, schedule, i);
    assert !Visitor(w.tasks[i]) && Standing(w.tasks[i], ys);
    var day, xs := days[i].day, ys[CLAIM_STEPS..];
    if ys[0].now >= Closes(day) {
      ChainEnds([LateFailure, LateManifest], MissedSchedule, xs);
    } else {
      AttemptDone(day, ys[0].now, xs, status);
      CleanLength(day, xs);
      if CleanAttempt(day, xs) {
        BooksDone(xs[ASSEMBLY].now, xs[STEPS..]);
      }
    }
  }

  lemma {:induction false} CleanLength(day: nat, xs: seq<Input>)
    ensures CleanAttempt(day, xs) ==> |xs| >= STEPS
  {
  }

  /**
   Over every run a task without the claim raised only because its first clock reading was outside its own day or
   before the opening, or because a probe or the claim met a store error; such a reading always stops it there.
  */
  lemma {:induction false} TurnedAwayExactly(days: seq<Day>, schedule: seq<Event>, i: nat)
    requires i < |days|
    ensures i < |Run(Beginning(days), schedule).tasks|
    ensures var t, ys := Run(Beginning(days), schedule).tasks[i], OwnInputs(schedule, i);
            && (t.hashes == map[] && t.pc == Raised ==>
                  ys != [] && (!Passed(days[i].day, ys[0].now) || exists n :: 1 <= n < |ys| && n <= 6 && ys[n].storeError))
            && (ys != [] && !Passed(days[i].day, ys[0].now) ==> t.hashes == map[] && t.pc == Raised)
  {
    hide Run, Recorded, Passed, Closes, Chain, Chronicle;
    OwnCourse(days, schedule, i);
    var w := Run(Beginning(days), schedule);
    if !Visitor(w.tasks[i]) {
      OwnerNonempty(w.objects, w.tasks[i]);
    }
    hide Owner;
  }
}
