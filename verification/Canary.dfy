/**
 The one-shot metadata canary: `capture_one` with `_reserve_claim` and `_receipt_write_once`, for one
 target date. Any number of calls interleave; every operation may fail, a process may be killed between
 any two operations, and the power may fail at any time.
*/
module Canary {
  import opened Filesystem

  const ROOT: nat := 0

  const MARKER := Path(ROOT, Fixed(".slot.claimed"))
  const SLOT := Path(ROOT, Fixed("slot"))

  function Pending(slot: nat): Path {
    Path(slot, Fixed("receipt.json.pending"))
  }

  function Receipt(slot: nat): Path {
    Path(slot, Fixed("receipt.json"))
  }

  datatype Pc =
    | Start
    | WriteMarker(fd: nat)
    | SyncMarker(fd: nat)
    | SyncRootForMarker
    | MakeSlot
    | SyncRootForSlot
    | OpenSlot
    | Acquire(slot: nat)
    | Stage(slot: nat)
    | WriteStaged(slot: nat, fd: nat)
    | SyncStaged(slot: nat, fd: nat)
    | SyncSlotStaged(slot: nat, fd: nat)
    | Publish(slot: nat, fd: nat)
    | Unstage(slot: nat, fd: nat)
    | SyncSlotPublished(slot: nat, fd: nat)
    | SyncRootPublished(slot: nat, fd: nat)
    | Retract(slot: nat, fd: nat)
    | SyncRetracted(slot: nat, fd: nat)
    | Returned(slot: nat, fd: nat)
    | Refused
    | Poisoned
    | Killed

  /** One call: `runs` counts its getter invocations, `blob` is the receipt it composed after them. */
  datatype Call = Call(pc: Pc, blob: seq<int>, runs: nat, composed: bool)

  datatype Input = Input(fails: bool, inWindow: bool, data: seq<int>)

  /** An exception: before publication the slot is poisoned, after it the receipt is retracted first. */
  function Raise(fs: Fs, c: Call): (Fs, Call) {
    match c.pc
    case Unstage(slot, fd) => (fs, c.(pc := Retract(slot, fd)))
    case SyncSlotPublished(slot, fd) => (fs, c.(pc := Retract(slot, fd)))
    case SyncRootPublished(slot, fd) => (fs, c.(pc := Retract(slot, fd)))
    case _ => (fs, c.(pc := Poisoned))
  }

  /** The claim: marker, its data, the root directory, the slot directory, the root directory again. */
  function ClaimStep(fs: Fs, c: Call, x: Input): (Fs, Call) {
    match c.pc
    case Start =>
      if MARKER in fs.live then (fs, c.(pc := Refused))
      else (Create(fs, MARKER, true), c.(pc := WriteMarker(fs.next)))
    case WriteMarker(fd) =>
      if fd in fs.files then (Append(fs, fd, x.data), c.(pc := SyncMarker(fd))) else Raise(fs, c)
    case SyncMarker(fd) =>
      if fd in fs.files then (SyncFile(fs, fd), c.(pc := SyncRootForMarker)) else Raise(fs, c)
    case SyncRootForMarker => (SyncDir(fs, ROOT), c.(pc := MakeSlot))
    case MakeSlot =>
      if SLOT in fs.live then Raise(fs, c) else (Create(fs, SLOT, false), c.(pc := SyncRootForSlot))
    case SyncRootForSlot => (SyncDir(fs, ROOT), c.(pc := OpenSlot))
    case OpenSlot => if SLOT in fs.live then (fs, c.(pc := Acquire(fs.live[SLOT]))) else Raise(fs, c)
    case _ => (fs, c)
  }

  /** The receipt: staged, synced, linked under its final name, synced; or retracted. */
  function ReceiptStep(fs: Fs, c: Call, x: Input): (Fs, Call) {
    match c.pc
    case Stage(slot) =>
      if Pending(slot) in fs.live then Raise(fs, c)
      else (Create(fs, Pending(slot), true), c.(pc := WriteStaged(slot, fs.next)))
    case WriteStaged(slot, fd) =>
      if fd in fs.files then (Append(fs, fd, c.blob), c.(pc := SyncStaged(slot, fd))) else Raise(fs, c)
    case SyncStaged(slot, fd) =>
      if fd in fs.files then (SyncFile(fs, fd), c.(pc := SyncSlotStaged(slot, fd))) else Raise(fs, c)
    case SyncSlotStaged(slot, fd) => (SyncDir(fs, slot), c.(pc := Publish(slot, fd)))
    case Publish(slot, fd) =>
      if Pending(slot) !in fs.live || Receipt(slot) in fs.live then Raise(fs, c)
      else (Link(fs, Pending(slot), Receipt(slot)), c.(pc := Unstage(slot, fd)))
    case Unstage(slot, fd) =>
      if Pending(slot) in fs.live then (Unlink(fs, Pending(slot)), c.(pc := SyncSlotPublished(slot, fd)))
      else Raise(fs, c)
    case SyncSlotPublished(slot, fd) => (SyncDir(fs, slot), c.(pc := SyncRootPublished(slot, fd)))
    case SyncRootPublished(slot, fd) => (SyncDir(fs, ROOT), c.(pc := Returned(slot, fd)))
    case Retract(slot, fd) =>
      if Receipt(slot) in fs.live then (Unlink(fs, Receipt(slot)), c.(pc := SyncRetracted(slot, fd)))
      else Raise(fs, c)
    case SyncRetracted(slot, fd) => (SyncDir(fs, slot), c.(pc := Poisoned))
    case _ => (fs, c)
  }

  function CallStep(fs: Fs, c: Call, x: Input): (Fs, Call) {
    if c.pc.Acquire? then
      // Outside the window the getter is never called, and a failure receipt is composed all the same.
      var ran := c.(runs := c.runs + (if x.inWindow then 1 else 0));
      (fs, if x.fails then ran.(pc := Poisoned) else ran.(pc := Stage(c.pc.slot), blob := x.data, composed := true))
    else if x.fails && c.pc.WriteStaged? && c.pc.fd in fs.files then
      // A failed write may leave part of the data behind.
      (Append(fs, c.pc.fd, x.data), c.(pc := Poisoned))
    else if x.fails && !Finished(c.pc) then Raise(fs, c)
    else if c.pc.Start? || Claiming(c.pc) then ClaimStep(fs, c, x)
    else ReceiptStep(fs, c, x)
  }

  predicate Finished(pc: Pc) {
    pc.Returned? || pc.Refused? || pc.Poisoned? || pc.Killed?
  }

  predicate Claiming(pc: Pc) {
    || pc.WriteMarker? || pc.SyncMarker? || pc.SyncRootForMarker? || pc.MakeSlot?
    || pc.SyncRootForSlot? || pc.OpenSlot?
  }

  datatype World = World(fs: Fs, calls: seq<Call>)

  datatype Event = Act(call: nat, input: Input) | Kill(victim: nat) | PowerLoss(after: Fs)

  function Die(c: Call): Call {
    if c.pc.Start? || Finished(c.pc) then c else c.(pc := Killed)
  }

  ghost function Step(w: World, e: Event): World {
    match e
    case Act(i, x) =>
      if i >= |w.calls| then w
      else
        var (fs, c) := CallStep(w.fs, w.calls[i], x);
        World(fs, w.calls[i := c])
    case Kill(i) => if i >= |w.calls| then w else w.(calls := w.calls[i := Die(w.calls[i])])
    case PowerLoss(after) =>
      if CrashOutcome(w.fs, after)
      then World(after, seq(|w.calls|, i requires 0 <= i < |w.calls| => Die(w.calls[i])))
      else w
  }

  ghost function Run(w: World, events: seq<Event>): World
    decreases |events|
  {
    if events == [] then w else Run(Step(w, events[0]), events[1..])
  }

  /** An empty root directory and any number of calls that have not started. */
  function Beginning(n: nat): World {
    World(Fs(1, map[], map[], {}), seq(n, _ => Call(Start, [], 0, false)))
  }

  // ----- invariant -----

  /** Holding the claim: from the marker's creation to the call's end, and after a normal return. */
  predicate Holding(pc: Pc) {
    !pc.Start? && !pc.Refused? && !pc.Poisoned? && !pc.Killed?
  }

  predicate MarkerMayBeLost(pc: Pc) {
    pc.WriteMarker? || pc.SyncMarker? || pc.SyncRootForMarker?
  }

  predicate BeforeGetter(pc: Pc) {
    Claiming(pc) || pc.Acquire?
  }

  ghost predicate Kept(fs: Fs, p: Path) {
    p in fs.live && Durable(fs, p)
  }

  ghost predicate Staged(fs: Fs, fd: nat, data: seq<int>, synced: bool) {
    fd in fs.files && fs.files[fd] == File(data, synced)
  }

  predicate HasSlot(pc: Pc) {
    Holding(pc) && !Claiming(pc)
  }

  predicate HasFd(pc: Pc) {
    HasSlot(pc) && !pc.Acquire? && !pc.Stage?
  }

  /** What a call knows about the files it works on. */
  ghost predicate CallInv(fs: Fs, c: Call) {
    && (Holding(c.pc) ==> MARKER in fs.live)
    && (Holding(c.pc) && !MarkerMayBeLost(c.pc) ==> Kept(fs, MARKER))
    && (c.runs > 0 ==> Kept(fs, MARKER))
    && (c.runs <= 1 && (c.pc.Start? || BeforeGetter(c.pc) ==> c.runs == 0))
    && (c.pc.WriteMarker? || c.pc.SyncMarker? ==> c.pc.fd in fs.files && !fs.files[c.pc.fd].synced)
    && (c.pc.SyncRootForSlot? ==> SLOT in fs.live && fs.live[SLOT] != ROOT)
    && (c.pc.OpenSlot? ==> Kept(fs, SLOT) && fs.live[SLOT] != ROOT)
    && (HasSlot(c.pc) ==> Kept(fs, SLOT) && fs.live[SLOT] == c.pc.slot && c.pc.slot != ROOT)
    && (HasSlot(c.pc) && !c.pc.Acquire? ==> c.composed)
    && (c.pc.Start? || BeforeGetter(c.pc) ==> !c.composed)
    && (c.pc.WriteStaged? ==> Staged(fs, c.pc.fd, [], false))
    && (c.pc.SyncStaged? ==> Staged(fs, c.pc.fd, c.blob, false))
    && (HasFd(c.pc) && !c.pc.WriteStaged? && !c.pc.SyncStaged? ==> Staged(fs, c.pc.fd, c.blob, true))
    && (c.pc.WriteStaged? || c.pc.SyncStaged? || c.pc.SyncSlotStaged? || c.pc.Publish? ==>
          Pending(c.pc.slot) in fs.live && fs.live[Pending(c.pc.slot)] == c.pc.fd)
    && (c.pc.Unstage? || c.pc.SyncSlotPublished? || c.pc.SyncRootPublished? || c.pc.Returned? ==>
          Receipt(c.pc.slot) in fs.live && fs.live[Receipt(c.pc.slot)] == c.pc.fd)
    && (c.pc.SyncRootPublished? || c.pc.Returned? ==> Durable(fs, Receipt(c.pc.slot)))
  }

  /** Every receipt that exists, or that a power loss could bring back, is a complete synced blob. */
  ghost predicate ReceiptsComplete(w: World) {
    forall slot, i :: Possible(w.fs, Receipt(slot), At(i)) ==>
      i in w.fs.files && w.fs.files[i].synced && ComposedBy(w.calls, w.fs.files[i].data)
  }

  ghost predicate ComposedBy(calls: seq<Call>, data: seq<int>) {
    exists k :: 0 <= k < |calls| && calls[k].composed && calls[k].blob == data
  }

  ghost predicate OneHolder(calls: seq<Call>) {
    && (forall i, j :: 0 <= i < j < |calls| ==> !(Holding(calls[i].pc) && Holding(calls[j].pc)))
    && (forall i, j :: 0 <= i < |calls| && 0 <= j < |calls| && BeforeGetter(calls[i].pc) ==> calls[j].runs == 0)
    && (forall i, j :: 0 <= i < j < |calls| ==> calls[i].runs == 0 || calls[j].runs == 0)
  }

  ghost predicate Inv(w: World) {
    && w.fs.next >= 1 && Bounded(w.fs)
    && (forall i :: 0 <= i < |w.calls| ==> CallInv(w.fs, w.calls[i]))
    && OneHolder(w.calls)
    && ReceiptsComplete(w)
  }

  // ----- one operation -----

  /** Operations never touch synced data, and keep a durable marker durable. */
  ghost predicate Preserves(fs: Fs, g: Fs) {
    && (forall i :: i in fs.files ==> i in g.files && (fs.files[i].synced ==> g.files[i] == fs.files[i]))
    && (Kept(fs, MARKER) ==> Kept(g, MARKER))
    && (MARKER in fs.live ==> MARKER in g.live)
  }

  ghost predicate NoNewReceipt(fs: Fs, g: Fs) {
    forall slot, i :: Possible(g, Receipt(slot), At(i)) ==> Possible(fs, Receipt(slot), At(i))
  }

  lemma {:induction false} ClaimFiles(fs: Fs, c: Call, x: Input)
    requires fs.next >= 1 && Bounded(fs) && CallInv(fs, c)
    requires c.pc.Start? || Claiming(c.pc)
    ensures var g := ClaimStep(fs, c, x).0; g.next >= 1 && Bounded(g) && Preserves(fs, g)
  {
  }

  lemma {:induction false} ClaimReceipts(fs: Fs, c: Call, x: Input)
    requires Bounded(fs) && CallInv(fs, c)
    requires c.pc.Start? || Claiming(c.pc)
    ensures NoNewReceipt(fs, ClaimStep(fs, c, x).0)
  {
  }

  lemma {:induction false} ClaimCall(fs: Fs, c: Call, x: Input)
    requires fs.next >= 1 && Bounded(fs) && CallInv(fs, c)
    requires c.pc.Start? || Claiming(c.pc)
    ensures var (g, d) := ClaimStep(fs, c, x); CallInv(g, d)
  {
  }

  lemma {:induction false} ReceiptFiles(fs: Fs, c: Call, x: Input)
    requires fs.next >= 1 && Bounded(fs) && CallInv(fs, c)
    requires !c.pc.Start? && !BeforeGetter(c.pc)
    ensures var g := ReceiptStep(fs, c, x).0; g.next >= 1 && Bounded(g) && Preserves(fs, g)
  {
  }

  lemma {:induction false} ReceiptReceipts(fs: Fs, c: Call, x: Input)
    requires Bounded(fs) && CallInv(fs, c)
    requires !c.pc.Start? && !BeforeGetter(c.pc)
    ensures c.pc.Publish? || NoNewReceipt(fs, ReceiptStep(fs, c, x).0)
  {
  }

  lemma {:induction false} StagingCall(fs: Fs, c: Call, x: Input)
    requires fs.next >= 1 && Bounded(fs) && CallInv(fs, c)
    requires c.pc.Stage? || c.pc.WriteStaged?
    ensures var (g, d) := ReceiptStep(fs, c, x); CallInv(g, d)
  {
  }

  lemma {:induction false} SyncingCall(fs: Fs, c: Call, x: Input)
    requires fs.next >= 1 && Bounded(fs) && CallInv(fs, c)
    requires c.pc.SyncStaged? || c.pc.SyncSlotStaged?
    ensures var (g, d) := ReceiptStep(fs, c, x); CallInv(g, d)
  {
  }

  lemma {:induction false} PublishingCall(fs: Fs, c: Call, x: Input)
    requires fs.next >= 1 && Bounded(fs) && CallInv(fs, c)
    requires c.pc.Publish? || c.pc.Unstage?
    ensures var (g, d) := ReceiptStep(fs, c, x); CallInv(g, d)
  {
  }

  lemma {:induction false} PublishedCall(fs: Fs, c: Call, x: Input)
    requires fs.next >= 1 && Bounded(fs) && CallInv(fs, c)
    requires c.pc.SyncSlotPublished? || c.pc.SyncRootPublished?
    ensures var (g, d) := ReceiptStep(fs, c, x); CallInv(g, d)
  {
  }

  lemma {:induction false} ClosingCall(fs: Fs, c: Call, x: Input)
    requires fs.next >= 1 && Bounded(fs) && CallInv(fs, c)
    requires c.pc.Retract? || c.pc.SyncRetracted? || Finished(c.pc)
    ensures var (g, d) := ReceiptStep(fs, c, x); CallInv(g, d)
  {
  }

  lemma {:induction false} StepMoves(fs: Fs, c: Call, x: Input)
    ensures c.pc.Start? || Claiming(c.pc) ==>
              var d := ClaimStep(fs, c, x).1;
              && d.runs == c.runs && d.blob == c.blob && d.composed == c.composed
              && (Holding(d.pc) || BeforeGetter(d.pc) ==> Claiming(c.pc) || MARKER !in fs.live)
              && (c.pc.Start? && MARKER in fs.live ==> ClaimStep(fs, c, x).0 == fs)
    ensures !c.pc.Start? && !BeforeGetter(c.pc) ==>
              var d := ReceiptStep(fs, c, x).1;
              && d.runs == c.runs && d.blob == c.blob && d.composed == c.composed
              && (Holding(d.pc) ==> Holding(c.pc)) && !BeforeGetter(d.pc)
              && (Finished(c.pc) ==> ReceiptStep(fs, c, x).0 == fs)
  {
  }

  lemma {:induction false} RaiseInv(fs: Fs, c: Call)
    requires CallInv(fs, c) && !Finished(c.pc)
    ensures var (g, d) := Raise(fs, c);
            && g == fs && CallInv(g, d)
            && d.runs == c.runs && d.blob == c.blob && d.composed == c.composed
            && (Holding(d.pc) ==> Holding(c.pc)) && !BeforeGetter(d.pc)
  {
  }

  lemma {:induction false} CallStepInv(fs: Fs, c: Call, x: Input)
    requires fs.next >= 1 && Bounded(fs) && CallInv(fs, c)
    ensures var (g, d) := CallStep(fs, c, x);
            && g.next >= 1 && Bounded(g) && CallInv(g, d) && Preserves(fs, g)
            && (c.pc.Publish? || NoNewReceipt(fs, g))
            && (c.composed ==> d.composed && (!c.pc.Acquire? ==> d.blob == c.blob))
            && (Holding(d.pc) ==> Holding(c.pc) || MARKER !in fs.live)
            && (BeforeGetter(d.pc) ==> BeforeGetter(c.pc) || MARKER !in fs.live)
            && (d.runs > c.runs ==> BeforeGetter(c.pc) && !BeforeGetter(d.pc))
            && (!Holding(c.pc) && (c.pc.Start? ==> MARKER in fs.live) ==> g == fs)
  {
    if c.pc.Acquire? || (x.fails && c.pc.WriteStaged?) {
      hide ClaimStep, ReceiptStep;
    } else if x.fails && !Finished(c.pc) {
      hide ClaimStep, ReceiptStep, Raise, CallInv, Bounded;
      RaiseInv(fs, c);
    } else if c.pc.Start? || Claiming(c.pc) {
      hide ClaimStep, ReceiptStep, Raise, CallInv, Bounded, Preserves, NoNewReceipt;
      ClaimFiles(fs, c, x);
      ClaimReceipts(fs, c, x);
      ClaimCall(fs, c, x);
      StepMoves(fs, c, x);
    } else {
      hide ClaimStep, ReceiptStep, Raise, CallInv, Bounded, Preserves, NoNewReceipt;
      ReceiptFiles(fs, c, x);
      ReceiptReceipts(fs, c, x);
      StepMoves(fs, c, x);
      if c.pc.Stage? || c.pc.WriteStaged? {
        StagingCall(fs, c, x);
      } else if c.pc.SyncStaged? || c.pc.SyncSlotStaged? {
        SyncingCall(fs, c, x);
      } else if c.pc.Publish? || c.pc.Unstage? {
        PublishingCall(fs, c, x);
      } else if c.pc.SyncSlotPublished? || c.pc.SyncRootPublished? {
        PublishedCall(fs, c, x);
      } else {
        ClosingCall(fs, c, x);
      }
    }
  }

  /** Publication links exactly the synced blob of the publishing call. */
  lemma {:induction false} PublishedReceipt(fs: Fs, c: Call, x: Input, slot: nat, i: nat)
    requires Bounded(fs) && CallInv(fs, c) && c.pc.Publish?
    requires Possible(CallStep(fs, c, x).0, Receipt(slot), At(i))
    ensures Possible(fs, Receipt(slot), At(i)) || (i == c.pc.fd && Staged(fs, i, c.blob, true) && c.composed)
  {
  }

  // ----- one event -----

  lemma {:induction false} ActInv(w: World, i: nat, x: Input)
    requires Inv(w) && i < |w.calls|
    ensures Inv(Step(w, Act(i, x)))
  {
    hide CallStep, Bounded;
    var c := w.calls[i];
    var (g, d) := CallStep(w.fs, c, x);
    CallStepInv(w.fs, c, x);
    var v := Step(w, Act(i, x));
    OthersKeep(w, i, g, d);
    ReceiptsAfter(w, i, x);
    assert v.calls == w.calls[i := d];
  }

  /** A step of one call leaves the other calls' facts standing and the claim exclusive. */
  lemma {:induction false} OthersKeep(w: World, i: nat, g: Fs, d: Call)
    requires Inv(w) && i < |w.calls| && CallInv(g, d) && Preserves(w.fs, g)
    requires Holding(d.pc) ==> Holding(w.calls[i].pc) || MARKER !in w.fs.live
    requires BeforeGetter(d.pc) ==> BeforeGetter(w.calls[i].pc) || MARKER !in w.fs.live
    requires d.runs > w.calls[i].runs ==> BeforeGetter(w.calls[i].pc) && !BeforeGetter(d.pc)
    requires !Holding(w.calls[i].pc) && (w.calls[i].pc.Start? ==> MARKER in w.fs.live) ==> g == w.fs
    ensures OneHolder(w.calls[i := d])
    ensures forall j :: 0 <= j < |w.calls| && j != i ==> CallInv(g, w.calls[j])
  {
    hide Bounded;
  }

  lemma {:induction false} ReceiptsAfter(w: World, i: nat, x: Input)
    requires Inv(w) && i < |w.calls|
    ensures ReceiptsComplete(Step(w, Act(i, x)))
  {
    hide CallStep, Bounded, Step;
    var c := w.calls[i];
    var (g, d) := CallStep(w.fs, c, x);
    CallStepInv(w.fs, c, x);
    var v := Step(w, Act(i, x));
    assert v == World(g, w.calls[i := d]) by {
      ActStep(w, i, x);
    }
    forall slot, n | Possible(v.fs, Receipt(slot), At(n))
      ensures n in v.fs.files && v.fs.files[n].synced && ComposedBy(v.calls, v.fs.files[n].data) {
      if c.pc.Publish? {
        PublishedReceipt(w.fs, c, x, slot, n);
      }
      if Possible(w.fs, Receipt(slot), At(n)) {
        var k :| 0 <= k < |w.calls| && w.calls[k].composed && w.calls[k].blob == w.fs.files[n].data;
        assert v.calls[k].composed && v.calls[k].blob == v.fs.files[n].data;
      } else {
        assert v.calls[i].composed && v.calls[i].blob == v.fs.files[n].data;
      }
    }
  }

  lemma {:induction false} ActStep(w: World, i: nat, x: Input)
    requires i < |w.calls|
    ensures Step(w, Act(i, x)) == (var (g, d) := CallStep(w.fs, w.calls[i], x); World(g, w.calls[i := d]))
  {
    hide CallStep;
  }

  lemma {:induction false} KillInv(w: World, i: nat)
    requires Inv(w)
    ensures Inv(Step(w, Kill(i)))
  {
    var v := Step(w, Kill(i));
    forall slot, n | Possible(v.fs, Receipt(slot), At(n)) ensures ComposedBy(v.calls, v.fs.files[n].data) {
      var k :| 0 <= k < |w.calls| && w.calls[k].composed && w.calls[k].blob == w.fs.files[n].data;
      assert v.calls[k].composed && v.calls[k].blob == v.fs.files[n].data;
    }
  }

  lemma {:induction false} DeadCallInv(fs: Fs, g: Fs, c: Call)
    requires CallInv(fs, c) && CrashOutcome(fs, g)
    ensures CallInv(g, Die(c))
  {
    hide CrashOutcome;
    if c.runs > 0 {
      CrashKeepsDurable(fs, g, MARKER);
    }
    if c.pc.Returned? {
      CrashKeepsDurable(fs, g, MARKER);
      CrashKeepsDurable(fs, g, SLOT);
      CrashKeepsDurable(fs, g, Receipt(c.pc.slot));
      CrashKeepsSynced(fs, g, c.pc.fd);
    }
  }

  lemma {:induction false} CrashKeepsSynced(fs: Fs, g: Fs, i: nat)
    requires CrashOutcome(fs, g) && i in fs.files && fs.files[i].synced
    ensures i in g.files && g.files[i] == fs.files[i]
  {
  }

  lemma {:induction false} PowerLossInv(w: World, after: Fs)
    requires Inv(w)
    ensures Inv(Step(w, PowerLoss(after)))
  {
    if CrashOutcome(w.fs, after) {
      var v := Step(w, PowerLoss(after));
      CrashBounded(w.fs, after);
      forall i | 0 <= i < |v.calls| ensures CallInv(v.fs, v.calls[i]) {
        DeadCallInv(w.fs, after, w.calls[i]);
      }
      forall slot, n | Possible(v.fs, Receipt(slot), At(n))
        ensures n in v.fs.files && v.fs.files[n].synced && ComposedBy(v.calls, v.fs.files[n].data) {
        CrashPossible(w.fs, after, Receipt(slot), At(n));
        CrashKeepsSynced(w.fs, after, n);
        var k :| 0 <= k < |w.calls| && w.calls[k].composed && w.calls[k].blob == w.fs.files[n].data;
        assert v.calls[k].composed && v.calls[k].blob == v.fs.files[n].data;
      }
      assert after.next >= 1;
      hide CallInv, Bounded, CrashOutcome, ReceiptsComplete;
    }
  }

  lemma {:induction false} StepInv(w: World, e: Event)
    requires Inv(w)
    ensures Inv(Step(w, e))
  {
    match e {
      case Act(i, x) =>
        if i < |w.calls| {
          ActInv(w, i, x);
        }
      case Kill(i) => KillInv(w, i);
      case PowerLoss(after) => PowerLossInv(w, after);
    }
    hide Inv;
  }

  lemma {:induction false} RunInv(w: World, events: seq<Event>)
    requires Inv(w)
    ensures Inv(Run(w, events))
    decreases |events|
  {
    hide Inv, Step;
    if events != [] {
      StepInv(w, events[0]);
      RunInv(Step(w, events[0]), events[1..]);
    }
  }

  lemma {:induction false} Reachable(n: nat, events: seq<Event>)
    ensures Inv(Run(Beginning(n), events))
  {
    RunInv(Beginning(n), events);
    hide Run;
  }

  // ----- what every run guarantees -----

  function TotalRuns(calls: seq<Call>): nat {
    if calls == [] then 0 else calls[0].runs + TotalRuns(calls[1..])
  }

  lemma {:induction false} AtMostOneRun(calls: seq<Call>)
    requires forall i :: 0 <= i < |calls| ==> calls[i].runs <= 1
    requires forall i, j :: 0 <= i < j < |calls| ==> calls[i].runs == 0 || calls[j].runs == 0
    ensures TotalRuns(calls) <= 1
    ensures TotalRuns(calls) > 0 ==> exists i :: 0 <= i < |calls| && calls[i].runs > 0
  {
    if calls != [] {
      AtMostOneRun(calls[1..]);
      if TotalRuns(calls[1..]) > 0 {
        var i :| 0 <= i < |calls[1..]| && calls[1..][i].runs > 0;
        assert calls[i + 1].runs > 0;
      }
    }
  }

  /** The source getter runs at most once for the date, over all calls, kills and power losses. */
  lemma {:induction false} GetterAtMostOnce(n: nat, events: seq<Event>)
    ensures TotalRuns(Run(Beginning(n), events).calls) <= 1
  {
    Reachable(n, events);
    AtMostOneRun(Run(Beginning(n), events).calls);
    hide Run;
  }

  /** Once the getter has run, the marker is on disk for good: every further call is refused. */
  lemma {:induction false} AcquiredMeansClaimed(n: nat, events: seq<Event>)
    requires TotalRuns(Run(Beginning(n), events).calls) > 0
    ensures Kept(Run(Beginning(n), events).fs, MARKER)
  {
    hide Run;
    Reachable(n, events);
    var w := Run(Beginning(n), events);
    AtMostOneRun(w.calls);
    var i :| 0 <= i < |w.calls| && w.calls[i].runs > 0;
    assert CallInv(w.fs, w.calls[i]);
  }

  /** At every moment, after any power losses, a visible receipt is one call's complete synced blob. */
  lemma {:induction false} ReceiptAbsentOrComplete(n: nat, events: seq<Event>, slot: nat)
    ensures var w := Run(Beginning(n), events);
            Receipt(slot) in w.fs.live ==>
              var i := w.fs.live[Receipt(slot)];
              i in w.fs.files && w.fs.files[i].synced && ComposedBy(w.calls, w.fs.files[i].data)
  {
    Reachable(n, events);
    var w := Run(Beginning(n), events);
    if Receipt(slot) in w.fs.live {
      assert Possible(w.fs, Receipt(slot), At(w.fs.live[Receipt(slot)]));
    }
    hide Run;
  }

  /** The receipt of a call that returned, reached through the slot directory from the root. */
  ghost predicate ReceiptOnDisk(fs: Fs, slot: nat, blob: seq<int>) {
    && Kept(fs, SLOT) && fs.live[SLOT] == slot
    && Kept(fs, Receipt(slot))
    && Staged(fs, fs.live[Receipt(slot)], blob, true)
  }

  lemma {:induction false} ReturnedStays(w: World, e: Event, i: nat)
    requires Inv(w) && i < |w.calls| && w.calls[i].pc.Returned?
    ensures i < |Step(w, e).calls| && Step(w, e).calls[i] == w.calls[i]
  {
    hide ClaimStep, Inv;
  }

  /** A normal return leaves the complete receipt durable, through everything that happens later. */
  lemma {:induction false} ReturnIsDurable(w: World, events: seq<Event>, i: nat)
    requires Inv(w) && i < |w.calls| && w.calls[i].pc.Returned?
    ensures ReceiptOnDisk(Run(w, events).fs, w.calls[i].pc.slot, w.calls[i].blob)
    decreases |events|
  {
    if events == [] {
      assert CallInv(w.fs, w.calls[i]);
    } else {
      hide Inv, Step;
      StepInv(w, events[0]);
      ReturnedStays(w, events[0], i);
      ReturnIsDurable(Step(w, events[0]), events[1..], i);
    }
  }
}
