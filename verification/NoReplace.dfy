/**
 `_write_create_only`: any number of concurrent writers publish to one final path through private temp
 files and a no-replace hard link. Writes may be short, any operation may fail, processes may be killed
 and the power may fail.
*/
module NoReplace {
  import opened Filesystem

  const DIR: nat := 0
  const FINAL := Path(DIR, Fixed("final"))

  /** The writer's temp file; its name carries a fresh unique identifier. */
  function TempPath(writer: nat): Path {
    Path(DIR, Temp(writer))
  }

  datatype Pc =
    | Start
    | WriteChunk(fd: nat, done: nat)
    | SyncTemp(fd: nat)
    | LinkFinal(fd: nat)
    | Compare
    | Cleanup(ok: bool)
    | Done(ok: bool)
    | Killed

  datatype Writer = Writer(pc: Pc, payload: seq<int>)

  datatype Input = Input(fails: bool, written: int)

  function Min(a: nat, b: nat): nat {
    if a <= b then a else b
  }

  function WriterStep(fs: Fs, id: nat, w: Writer, x: Input): (Fs, Writer) {
    match w.pc
    case Start =>
      if x.fails || TempPath(id) in fs.live then (fs, w.(pc := Done(false)))
      else (Create(fs, TempPath(id), true), w.(pc := WriteChunk(fs.next, 0)))
    case WriteChunk(fd, done) =>
      if done >= |w.payload| then (fs, w.(pc := SyncTemp(fd)))
      else if x.fails || x.written <= 0 || fd !in fs.files then (fs, w.(pc := Cleanup(false)))
      else
        var k := Min(x.written, |w.payload| - done);
        (Append(fs, fd, w.payload[done..done + k]), w.(pc := WriteChunk(fd, done + k)))
    case SyncTemp(fd) =>
      if x.fails || fd !in fs.files then (fs, w.(pc := Cleanup(false)))
      else (SyncFile(fs, fd), w.(pc := LinkFinal(fd)))
    case LinkFinal(fd) =>
      if FINAL in fs.live then (fs, w.(pc := if x.fails then Cleanup(false) else Compare))
      else if x.fails || TempPath(id) !in fs.live then (fs, w.(pc := Cleanup(false)))
      else (Link(fs, TempPath(id), FINAL), w.(pc := Cleanup(true)))
    case Compare =>
      // Not inspectable, not a regular file, or different bytes: fail closed.
      if x.fails || FINAL !in fs.live || fs.live[FINAL] !in fs.files then (fs, w.(pc := Cleanup(false)))
      else (fs, w.(pc := Cleanup(fs.files[fs.live[FINAL]].data == w.payload)))
    case Cleanup(ok) =>
      if x.fails then (fs, w.(pc := Done(false)))
      else (if TempPath(id) in fs.live then Unlink(fs, TempPath(id)) else fs, w.(pc := Done(ok)))
    case Done(_) => (fs, w)
    case Killed => (fs, w)
  }

  datatype World = World(fs: Fs, writers: seq<Writer>)

  datatype Event = Act(writer: nat, input: Input) | Kill(victim: nat) | PowerLoss(after: Fs)

  function Die(w: Writer): Writer {
    if w.pc.Start? || w.pc.Done? then w else w.(pc := Killed)
  }

  ghost function Step(w: World, e: Event): World {
    match e
    case Act(i, x) =>
      if i >= |w.writers| then w
      else
        var (fs, u) := WriterStep(w.fs, i, w.writers[i], x);
        World(fs, w.writers[i := u])
    case Kill(i) => if i >= |w.writers| then w else w.(writers := w.writers[i := Die(w.writers[i])])
    case PowerLoss(after) =>
      if CrashOutcome(w.fs, after)
      then World(after, seq(|w.writers|, i requires 0 <= i < |w.writers| => Die(w.writers[i])))
      else w
  }

  ghost function Run(w: World, events: seq<Event>): World
    decreases |events|
  {
    if events == [] then w else Run(Step(w, events[0]), events[1..])
  }

  /** An empty directory and one waiting writer per payload. */
  function Beginning(payloads: seq<seq<int>>): World {
    World(Fs(1, map[], map[], {}), seq(|payloads|, i requires 0 <= i < |payloads| => Writer(Start, payloads[i])))
  }

  // ----- invariant -----

  ghost predicate Published(fs: Fs, data: seq<int>) {
    FINAL in fs.live && fs.live[FINAL] in fs.files && fs.files[fs.live[FINAL]] == File(data, true)
  }

  ghost predicate TempHolds(fs: Fs, id: nat, fd: nat, data: seq<int>, synced: bool) {
    && TempPath(id) in fs.live && fs.live[TempPath(id)] == fd
    && fd in fs.files && fs.files[fd] == File(data, synced)
  }

  ghost predicate WriterInv(fs: Fs, id: nat, w: Writer) {
    match w.pc
    case WriteChunk(fd, done) => done <= |w.payload| && TempHolds(fs, id, fd, w.payload[..done], false)
    case SyncTemp(fd) => TempHolds(fs, id, fd, w.payload, false)
    case LinkFinal(fd) => TempHolds(fs, id, fd, w.payload, true)
    case Cleanup(ok) => ok ==> Published(fs, w.payload)
    case _ => true
  }

  ghost predicate FromWriter(writers: seq<Writer>, data: seq<int>) {
    exists k :: 0 <= k < |writers| && writers[k].payload == data
  }

  ghost predicate FinalComplete(w: World) {
    forall i :: Possible(w.fs, FINAL, At(i)) ==>
      i in w.fs.files && w.fs.files[i].synced && FromWriter(w.writers, w.fs.files[i].data)
  }

  /** Two temp files never share an inode, not even after a power loss. */
  ghost predicate TempsDistinct(fs: Fs) {
    forall a: nat, b: nat, n ::
      (Possible(fs, TempPath(a), At(n)) && Possible(fs, TempPath(b), At(n))) ==> a == b
  }

  /** The published entry is never unlinked, so a power loss can at most hide it. */
  ghost predicate FinalOnce(fs: Fs) {
    forall i :: (FINAL, At(i)) !in fs.shadow
  }

  ghost predicate Inv(w: World) {
    && Bounded(w.fs) && TempsDistinct(w.fs) && FinalOnce(w.fs)
    && (forall i :: 0 <= i < |w.writers| ==> WriterInv(w.fs, i, w.writers[i]))
    && FinalComplete(w)
  }

  // ----- one step -----

  /** What a writer's step may do to files and entries that are not its own temp file. */
  ghost predicate Polite(fs: Fs, g: Fs, id: nat) {
    && (forall i :: i in fs.files && fs.files[i].synced ==> i in g.files && g.files[i] == fs.files[i])
    && (forall j: nat :: j != id && TempPath(j) in fs.live ==>
          TempPath(j) in g.live && g.live[TempPath(j)] == fs.live[TempPath(j)]
          && (fs.live[TempPath(j)] in fs.files ==>
                fs.live[TempPath(j)] in g.files && g.files[fs.live[TempPath(j)]] == fs.files[fs.live[TempPath(j)]]))
    && (FINAL in fs.live ==> FINAL in g.live && g.live[FINAL] == fs.live[FINAL])
  }

  lemma {:induction false} StepBounded(fs: Fs, id: nat, w: Writer, x: Input)
    requires Bounded(fs) && WriterInv(fs, id, w)
    ensures Bounded(WriterStep(fs, id, w, x).0)
  {
  }

  /** A step can only make its own temp path refer to something new, and then to a fresh inode. */
  lemma {:induction false} StepTemps(fs: Fs, id: nat, w: Writer, x: Input, a: nat, n: nat)
    requires Possible(WriterStep(fs, id, w, x).0, TempPath(a), At(n))
    ensures Possible(fs, TempPath(a), At(n)) || (a == id && n == fs.next)
  {
  }

  lemma {:induction false} StepOnce(fs: Fs, id: nat, w: Writer, x: Input)
    requires FinalOnce(fs)
    ensures FinalOnce(WriterStep(fs, id, w, x).0)
  {
  }

  lemma {:induction false} StepFiles(fs: Fs, id: nat, w: Writer, x: Input)
    requires Bounded(fs) && TempsDistinct(fs) && WriterInv(fs, id, w)
    ensures var g := WriterStep(fs, id, w, x).0; Bounded(g) && TempsDistinct(g)
    ensures FinalOnce(fs) ==> FinalOnce(WriterStep(fs, id, w, x).0)
  {
    hide WriterStep, WriterInv, FinalOnce;
    if FinalOnce(fs) {
      StepOnce(fs, id, w, x);
    }
    StepBounded(fs, id, w, x);
    var g := WriterStep(fs, id, w, x).0;
    forall a: nat, b: nat, n | Possible(g, TempPath(a), At(n)) && Possible(g, TempPath(b), At(n)) ensures a == b {
      StepTemps(fs, id, w, x, a, n);
      StepTemps(fs, id, w, x, b, n);
    }
  }

  lemma {:induction false} StepPolite(fs: Fs, id: nat, w: Writer, x: Input)
    requires Bounded(fs) && TempsDistinct(fs) && WriterInv(fs, id, w)
    ensures Polite(fs, WriterStep(fs, id, w, x).0, id)
  {
    assert forall j: nat :: TempPath(j) in fs.live ==> Possible(fs, TempPath(j), At(fs.live[TempPath(j)]));
  }

  lemma {:induction false} StepWriter(fs: Fs, id: nat, w: Writer, x: Input)
    requires Bounded(fs) && WriterInv(fs, id, w)
    requires forall i :: Possible(fs, FINAL, At(i)) ==> i in fs.files && fs.files[i].synced
    ensures var (g, u) := WriterStep(fs, id, w, x); WriterInv(g, id, u) && u.payload == w.payload
  {
  }

  lemma {:induction false} StepFinal(fs: Fs, id: nat, w: Writer, x: Input, i: nat)
    requires Bounded(fs) && WriterInv(fs, id, w)
    requires Possible(WriterStep(fs, id, w, x).0, FINAL, At(i))
    ensures Possible(fs, FINAL, At(i)) || (i in fs.files && fs.files[i] == File(w.payload, true))
  {
  }

  lemma {:induction false} OtherWriter(fs: Fs, g: Fs, id: nat, j: nat, w: Writer)
    requires WriterInv(fs, j, w) && Polite(fs, g, id) && j != id
    ensures WriterInv(g, j, w)
  {
  }

  lemma {:induction false} ActInv(w: World, i: nat, x: Input)
    requires Inv(w) && i < |w.writers|
    ensures Inv(Step(w, Act(i, x)))
  {
    hide WriterStep, Bounded, TempsDistinct, FinalOnce, Polite, WriterInv;
    var (g, u) := WriterStep(w.fs, i, w.writers[i], x);
    var v := Step(w, Act(i, x));
    StepFiles(w.fs, i, w.writers[i], x);
    StepPolite(w.fs, i, w.writers[i], x);
    StepWriter(w.fs, i, w.writers[i], x);
    forall j | 0 <= j < |w.writers| && j != i ensures WriterInv(g, j, w.writers[j]) {
      OtherWriter(w.fs, g, i, j, w.writers[j]);
    }
    forall n | Possible(g, FINAL, At(n)) ensures n in g.files && g.files[n].synced && FromWriter(v.writers, g.files[n].data) {
      StepFinal(w.fs, i, w.writers[i], x, n);
      SyncedKept(w.fs, g, i, n);
      SamePayloads(w, i, u, g.files[n].data);
    }
  }

  lemma {:induction false} SyncedKept(fs: Fs, g: Fs, id: nat, n: nat)
    requires Polite(fs, g, id) && n in fs.files && fs.files[n].synced
    ensures n in g.files && g.files[n] == fs.files[n]
  {
  }

  lemma {:induction false} SamePayloads(w: World, i: nat, u: Writer, data: seq<int>)
    requires i < |w.writers| && u.payload == w.writers[i].payload
    requires FromWriter(w.writers, data) || data == u.payload
    ensures FromWriter(w.writers[i := u], data)
  {
    if data == u.payload {
      assert w.writers[i := u][i].payload == data;
    } else {
      var k :| 0 <= k < |w.writers| && w.writers[k].payload == data;
      assert w.writers[i := u][k].payload == data;
    }
  }

  lemma {:induction false} KillInv(w: World, i: nat)
    requires Inv(w)
    ensures Inv(Step(w, Kill(i)))
  {
    hide Bounded, TempsDistinct;
    var v := Step(w, Kill(i));
    if i < |w.writers| {
      forall n | Possible(v.fs, FINAL, At(n)) ensures FromWriter(v.writers, v.fs.files[n].data) {
        SamePayloads(w, i, Die(w.writers[i]), w.fs.files[n].data);
      }
    }
  }

  lemma {:induction false} PowerLossInv(w: World, after: Fs)
    requires Inv(w)
    ensures Inv(Step(w, PowerLoss(after)))
  {
    if CrashOutcome(w.fs, after) {
      var v := Step(w, PowerLoss(after));
      CrashBounded(w.fs, after);
      forall a: nat, b: nat, n | Possible(after, TempPath(a), At(n)) && Possible(after, TempPath(b), At(n))
        ensures a == b {
        CrashPossible(w.fs, after, TempPath(a), At(n));
        CrashPossible(w.fs, after, TempPath(b), At(n));
      }
      forall n | Possible(after, FINAL, At(n))
        ensures n in after.files && after.files[n].synced && FromWriter(v.writers, after.files[n].data) {
        CrashPossible(w.fs, after, FINAL, At(n));
        var k :| 0 <= k < |w.writers| && w.writers[k].payload == w.fs.files[n].data;
        assert v.writers[k].payload == after.files[n].data;
      }
      assert forall i :: 0 <= i < |v.writers| ==> v.writers[i].pc in {Start, Killed} || v.writers[i].pc.Done?;
      hide Bounded, CrashOutcome;
    }
  }

  lemma {:induction false} StepInv(w: World, e: Event)
    requires Inv(w)
    ensures Inv(Step(w, e))
  {
    hide Inv;
    match e {
      case Act(i, x) =>
        if i < |w.writers| {
          ActInv(w, i, x);
        }
      case Kill(i) => KillInv(w, i);
      case PowerLoss(after) => PowerLossInv(w, after);
    }
  }

  lemma {:induction false} RunInv(w: World, events: seq<Event>)
    requires Inv(w)
    ensures Inv(Run(w, events))
    decreases |events|
  {
    hide Inv, Step;
    if events != [] {
      StepInv(w, events[0]);
      RunInv(Step(w, events[0]), events[1..]);
    }
  }

  // ----- what every run guarantees -----

  /** The final path is absent or one writer's full payload, whatever fails, dies or loses power. */
  lemma {:induction false} FinalAbsentOrComplete(payloads: seq<seq<int>>, events: seq<Event>)
    ensures var fs := Run(Beginning(payloads), events).fs;
            FINAL in fs.live ==> exists k :: 0 <= k < |payloads| && Published(fs, payloads[k])
  {
    RunInv(Beginning(payloads), events);
    PayloadsFixed(Beginning(payloads), events);
    var w := Run(Beginning(payloads), events);
    if FINAL in w.fs.live {
      assert Possible(w.fs, FINAL, At(w.fs.live[FINAL]));
      var k :| 0 <= k < |w.writers| && w.writers[k].payload == w.fs.files[w.fs.live[FINAL]].data;
      assert Published(w.fs, payloads[k]);
    }
    hide Run;
  }

  lemma {:induction false} PayloadsFixed(w: World, events: seq<Event>)
    ensures var v := Run(w, events);
            |v.writers| == |w.writers| &&
            forall i :: 0 <= i < |w.writers| ==> v.writers[i].payload == w.writers[i].payload
    decreases |events|
  {
    if events != [] {
      assert forall i :: 0 <= i < |w.writers| ==> Step(w, events[0]).writers[i].payload == w.writers[i].payload;
      PayloadsFixed(Step(w, events[0]), events[1..]);
    }
  }

  // ----- published content -----

  /** A power loss hides the published entry at some event of the run. */
  ghost predicate Lost(w: World, events: seq<Event>)
    decreases |events|
  {
    events != [] && ((events[0].PowerLoss? && FINAL !in Step(w, events[0]).fs.live) || Lost(Step(w, events[0]), events[1..]))
  }

  /** The published entry was still there after some power loss of the run. */
  ghost predicate Survived(w: World, events: seq<Event>)
    decreases |events|
  {
    events != [] && (SurvivesLoss(w, events[0]) || Survived(Step(w, events[0]), events[1..]))
  }

  ghost predicate SurvivesLoss(w: World, e: Event) {
    e.PowerLoss? && CrashOutcome(w.fs, e.after) && FINAL in e.after.live
  }

  lemma {:induction false} PublishedStep(w: World, e: Event, data: seq<int>)
    requires Inv(w) && Published(w.fs, data)
    ensures Published(Step(w, e).fs, data) || (e.PowerLoss? && FINAL !in Step(w, e).fs.live)
  {
    if e.PowerLoss? && CrashOutcome(w.fs, e.after) {
      assert Possible(w.fs, FINAL, Current(e.after, FINAL));
    }
  }

  /** Over every run, power losses included, published content never changes; it can only be lost with the power. */
  lemma {:induction false} PublishedNeverChanges(w: World, events: seq<Event>, data: seq<int>)
    requires Inv(w) && Published(w.fs, data)
    ensures Published(Run(w, events).fs, data) || Lost(w, events)
    decreases |events|
  {
    hide Inv, Step, Published;
    if events != [] {
      PublishedStep(w, events[0], data);
      StepInv(w, events[0]);
      if Published(Step(w, events[0]).fs, data) {
        PublishedNeverChanges(Step(w, events[0]), events[1..], data);
      }
    }
  }

  lemma {:induction false} ReturnStep(w: World, e: Event, i: nat)
    requires Inv(w) && i < |w.writers| && w.writers[i].pc != Done(true)
    requires i < |Step(w, e).writers| && Step(w, e).writers[i].pc == Done(true)
    ensures Published(Step(w, e).fs, w.writers[i].payload)
  {
  }

  /**
   After any run, power losses included, the event at which a writer returns normally leaves exactly its own
   payload published.
  */
  lemma {:induction false} NormalReturnMatches(payloads: seq<seq<int>>, events: seq<Event>, e: Event, i: nat)
    requires var w := Run(Beginning(payloads), events);
             && i < |w.writers| && w.writers[i].pc != Done(true)
             && i < |Step(w, e).writers| && Step(w, e).writers[i].pc == Done(true)
    ensures i < |payloads| && Published(Step(Run(Beginning(payloads), events), e).fs, payloads[i])
  {
    hide Run, Step, Published;
    RunInv(Beginning(payloads), events);
    PayloadsFixed(Beginning(payloads), events);
    ReturnStep(Run(Beginning(payloads), events), e, i);
  }

  // ----- durability -----

  /** The exact condition under which a power loss can take the published entry away. */
  lemma {:induction false} LossCondition(fs: Fs)
    ensures (exists g :: CrashOutcome(fs, g) && FINAL !in g.live) <==> Possible(fs, FINAL, Gone)
  {
    if Possible(fs, FINAL, Gone) {
      var g := LostState(fs);
    }
    if g :| CrashOutcome(fs, g) && FINAL !in g.live {
      assert Possible(fs, FINAL, Current(g, FINAL));
    }
  }

  lemma {:induction false} LostState(fs: Fs) returns (g: Fs)
    requires Possible(fs, FINAL, Gone)
    ensures CrashOutcome(fs, g) && FINAL !in g.live
  {
    g := fs.(live := fs.live - {FINAL}, shadow := {});
    forall p ensures Possible(fs, p, Current(g, p)) {
      assert p != FINAL ==> Current(g, p) == Current(fs, p);
    }
  }

  /** One event: the entry becomes durable exactly by surviving a power loss, and stays so. */
  lemma {:induction false} DurableStep(w: World, e: Event)
    ensures Possible(Step(w, e).fs, FINAL, Gone) <==> Possible(w.fs, FINAL, Gone) && !SurvivesLoss(w, e)
  {
    if e.PowerLoss? && CrashOutcome(w.fs, e.after) {
      assert Possible(w.fs, FINAL, Current(e.after, FINAL));
    }
  }

  lemma {:induction false} DurableRun(w: World, events: seq<Event>)
    ensures Possible(Run(w, events).fs, FINAL, Gone) <==> Possible(w.fs, FINAL, Gone) && !Survived(w, events)
    decreases |events|
  {
    hide Step, SurvivesLoss;
    if events != [] {
      DurableStep(w, events[0]);
      DurableRun(Step(w, events[0]), events[1..]);
    }
  }

  /** The writer never syncs the directory: after any run a power loss can take the entry away, unless it survived one before. */
  lemma {:induction false} LossPossibleExactly(payloads: seq<seq<int>>, events: seq<Event>)
    ensures (exists g :: CrashOutcome(Run(Beginning(payloads), events).fs, g) && FINAL !in g.live) <==>
            !Survived(Beginning(payloads), events)
  {
    hide Run, CrashOutcome, Survived;
    DurableRun(Beginning(payloads), events);
    LossCondition(Run(Beginning(payloads), events).fs);
  }

  lemma {:induction false} DurableKept(w: World, events: seq<Event>, data: seq<int>)
    requires Inv(w) && Published(w.fs, data) && !Possible(w.fs, FINAL, Gone)
    ensures Published(Run(w, events).fs, data)
    decreases |events|
  {
    hide Inv, Step, Published;
    if events != [] {
      PublishedStep(w, events[0], data);
      DurableStep(w, events[0]);
      StepInv(w, events[0]);
      assert Possible(Step(w, events[0]).fs, FINAL, Current(Step(w, events[0]).fs, FINAL));
      DurableKept(Step(w, events[0]), events[1..], data);
    }
  }

  lemma {:induction false} Reached(payloads: seq<seq<int>>, events: seq<Event>)
    ensures Inv(Run(Beginning(payloads), events))
  {
    hide Run;
    RunInv(Beginning(payloads), events);
  }

  /** Published content lasts through everything that can still happen. */
  ghost predicate Lasts(w: World, data: seq<int>) {
    forall rest :: Published(Run(w, rest).fs, data)
  }

  /**
   When a normal return is durable: what is published, at whatever moment of whatever run, lasts through every
   continuation exactly if its entry has already survived a power loss.
  */
  lemma {:induction false} PublicationLastsExactly(payloads: seq<seq<int>>, events: seq<Event>, data: seq<int>)
    requires Published(Run(Beginning(payloads), events).fs, data)
    ensures Lasts(Run(Beginning(payloads), events), data) <==> Survived(Beginning(payloads), events)
  {
    hide Inv, Survived, Step;
    var w := Run(Beginning(payloads), events);
    Reached(payloads, events);
    DurableRun(Beginning(payloads), events);
    if Survived(Beginning(payloads), events) {
      forall rest ensures Published(Run(w, rest).fs, data) {
        DurableKept(w, rest, data);
      }
    } else {
      var g := LostState(w.fs);
      OneLoss(w, g);
      assert !Published(Run(w, [PowerLoss(g)]).fs, data);
    }
  }

  lemma {:induction false} OneLoss(w: World, g: Fs)
    requires CrashOutcome(w.fs, g)
    ensures Run(w, [PowerLoss(g)]).fs == g
  {
    hide CrashOutcome;
    assert [PowerLoss(g)][1..] == [];
    assert Run(Step(w, PowerLoss(g)), []) == Step(w, PowerLoss(g));
  }

  // ----- a normal return that is lost -----

  const OK := Act(0, Input(false, 1))

  function Alone(fs: Fs, pc: Pc): World {
    World(fs, [Writer(pc, [])])
  }

  /** The files of a lone writer of an empty payload: its temp entry, and the final one once linked. */
  function Files(synced: bool, live: map<Path, nat>, shadow: set<(Path, Entry)>): Fs {
    Fs(2, map[1 := File([], synced)], live, shadow)
  }

  lemma {:induction false} WriterSyncs()
    ensures var temp := TempPath(0);
            Step(Step(Step(Beginning([[]]), OK), OK), OK) ==
            Alone(Files(true, map[temp := 1], {(temp, Gone)}), LinkFinal(1))
  {
    var temp := TempPath(0);
    var w1 := Alone(Files(false, map[temp := 1], {(temp, Gone)}), WriteChunk(1, 0));
    assert Beginning([[]]) == Alone(Fs(1, map[], map[], {}), Start);
    assert Step(Beginning([[]]), OK) == w1;
    assert Step(w1, OK) == Alone(w1.fs, SyncTemp(1));
    assert Step(Step(w1, OK), OK) == Alone(Files(true, map[temp := 1], {(temp, Gone)}), LinkFinal(1));
  }

  lemma {:induction false} WriterReturns()
    ensures var temp := TempPath(0);
            Step(Step(Alone(Files(true, map[temp := 1], {(temp, Gone)}), LinkFinal(1)), OK), OK) ==
            Alone(Files(true, map[FINAL := 1], {(temp, Gone), (FINAL, Gone), (temp, At(1))}), Done(true))
  {
    var temp := TempPath(0);
    var w := Alone(Files(true, map[temp := 1], {(temp, Gone)}), LinkFinal(1));
    var w1 := Alone(Files(true, map[temp := 1, FINAL := 1], {(temp, Gone), (FINAL, Gone)}), Cleanup(true));
    assert Step(w, OK) == w1;
    assert w1.fs.live - {temp} == map[FINAL := 1];
    assert Step(w1, OK) == Alone(Files(true, map[FINAL := 1], {(temp, Gone), (FINAL, Gone), (temp, At(1))}), Done(true));
  }

  lemma {:induction false} FiveSteps(w: World)
    ensures Run(w, [OK, OK, OK, OK, OK]) == Step(Step(Step(Step(Step(w, OK), OK), OK), OK), OK)
  {
    hide Step;
    assert [OK, OK, OK, OK, OK][1..] == [OK, OK, OK, OK] && [OK, OK, OK, OK][1..] == [OK, OK, OK];
    assert [OK, OK, OK][1..] == [OK, OK] && [OK, OK][1..] == [OK] && [OK][1..] == [];
    var w1 := Step(w, OK);
    var w2, w3 := Step(w1, OK), Step(Step(w1, OK), OK);
    assert Run(w3, [OK, OK]) == Run(Step(w3, OK), [OK]) == Run(Step(Step(w3, OK), OK), []);
    assert Run(w1, [OK, OK, OK, OK]) == Run(w2, [OK, OK, OK]) == Run(w3, [OK, OK]);
  }

  /** One writer, nothing fails, it returns normally; then the power fails and the published file is gone. */
  lemma {:induction false} NormalReturnLost() returns (events: seq<Event>, g: Fs)
    ensures Run(Beginning([[]]), events).writers == [Writer(Done(true), [])]
    ensures Published(Run(Beginning([[]]), events).fs, [])
    ensures FINAL !in Run(Run(Beginning([[]]), events), [PowerLoss(g)]).fs.live
  {
    hide Run, Step, CrashOutcome;
    events := [OK, OK, OK, OK, OK];
    FiveSteps(Beginning([[]]));
    WriterSyncs();
    WriterReturns();
    var w := Run(Beginning([[]]), events);
    g := LostState(w.fs);
    OneLoss(w, g);
  }

  /**
   How publication ends when nothing fails: under a free name the writer's payload gets published; a name that is
   taken counts as success exactly when it holds the writer's payload, and nothing is changed.
  */
  lemma {:induction false} OutcomeExactly(fs: Fs, id: nat, w: Writer, x: Input, y: Input)
    requires w.pc.LinkFinal? && WriterInv(fs, id, w) && !x.fails && !y.fails
    requires FINAL in fs.live ==> fs.live[FINAL] in fs.files
    ensures var (g, u) := WriterStep(fs, id, w, x);
            && (FINAL !in fs.live ==> u.pc == Cleanup(true) && Published(g, w.payload))
            && (FINAL in fs.live ==>
                  var (h, v) := WriterStep(g, id, u, y);
                  h == fs && v.pc == Cleanup(fs.files[fs.live[FINAL]].data == w.payload))
  {
  }
}
