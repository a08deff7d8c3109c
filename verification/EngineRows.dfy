/**
 How stored order rows change: what a row keeps for good, exactly which events take its fill or clock back
 or alter a terminal row, and the calling discipline under which none does.
*/
module EngineRows {
  import opened OrderLifecycle
  import opened Engine
  import EngineSafety

  // ----- one event, any state -----

  /** The order an event writes with `save_order`, if it writes one. */
  function SavedOrder(w: World, e: Event): Option<LocalOrder> {
    match e
    case SubmitEvent(i, x) =>
      if i >= |w.submits| || x.fails then None
      else if w.submits[i].pc.SavePending? then Some(PendingOrder(w.submits[i]))
      else if w.submits[i].pc.SaveOutcome? then Some(w.submits[i].pc.order)
      else None
    case MutateEvent(i, x) =>
      if i >= |w.mutates| || x.fails then None
      else if w.mutates[i].pc.SaveMutating? then Some(w.mutates[i].pc.pending)
      else if w.mutates[i].pc.SaveMutated? then Some(w.mutates[i].pc.order)
      else None
    case _ => None
  }

  /** An event saves an order, recovers, or leaves every row alone. */
  lemma {:induction false} RowsAfter(w: World, e: Event)
    ensures Step(w, e).db.orders ==
            if SavedOrder(w, e).Some? then SaveOrder(w.db, SavedOrder(w, e).value).orders
            else if e.RecoverAll? then Recover(w.db).orders
            else w.db.orders
    ensures e.RecoverAll? ==> SavedOrder(w, e) == None
  {
    hide SaveOrder, Recover, Classify, ClassifyMutation, PendingOrder, Transition, RequestBody, JournalFree, Consumable, ExpireDue;
  }

  ghost predicate Overwrites(w: World, e: Event, id: ExecutionId) {
    SavedOrder(w, e).Some? && SavedOrder(w, e).value.executionId == id
  }

  /**
   The store never compares. Over every event in every state, a stored fill or clock goes back exactly when
   the event saves an order of that execution with a smaller one; a terminal row changes exactly when such
   an order differs from it in what a save writes, or recovery finds its journal incomplete.
  */
  lemma {:induction false} RowChangesExactly(w: World, e: Event, id: ExecutionId)
    requires id in w.db.orders
    ensures id in Step(w, e).db.orders
    ensures var row, after := w.db.orders[id], Step(w, e).db.orders[id];
            && (after.filled < row.filled <==> Overwrites(w, e, id) && SavedOrder(w, e).value.filled < row.filled)
            && (after.updatedAt < row.updatedAt <==> Overwrites(w, e, id) && SavedOrder(w, e).value.updatedAt < row.updatedAt)
            && (Terminal(row.state) ==>
                  (after != row <==>
                     || (Overwrites(w, e, id) && Upserted(row, SavedOrder(w, e).value) != row)
                     || (e.RecoverAll? && id in w.db.journals && Incomplete(w.db.journals[id]))))
  {
    hide Step, SavedOrder;
    RowsAfter(w, e);
  }

  // ----- what a row keeps whatever the callers do -----

  ghost predicate KeepsTerms(row: LocalOrder, after: LocalOrder) {
    && after.executionId == row.executionId && after.price == row.price && after.quantity == row.quantity
    && (row.exchangeOrderId.Some? ==> after.exchangeOrderId.Some?)
  }

  /** Over every run a stored row never disappears, its price and quantity never change and its exchange id is never lost. */
  lemma {:induction false} StoredTermsPermanent(w: World, events: seq<Event>, id: ExecutionId)
    requires id in w.db.orders
    ensures id in Run(w, events).db.orders && KeepsTerms(w.db.orders[id], Run(w, events).db.orders[id])
    decreases |events|
  {
    hide Step;
    if events != [] {
      RowsAfter(w, events[0]);
      StoredTermsPermanent(Step(w, events[0]), events[1..], id);
    }
  }

  // ----- the calling discipline -----

  datatype Caller = SubmitCall(i: nat) | MutateCall(j: nat)

  /** Per execution, the last call that began to work on it. */
  type Holders = map<ExecutionId, Caller>

  predicate SubmitWorking(pc: SubmitPc) {
    !pc.CheckSubmit? && !pc.AcquireJournal? && !pc.SubmitReturned? && !pc.SubmitRaised?
  }

  predicate MutateWorking(pc: MutatePc) {
    !pc.CheckMutation? && !pc.AcquireMutation? && !pc.MutateReturned? && !pc.MutateRaised?
  }

  /** A call begins to work on its execution when it has acquired its journal or its attempt. */
  function Begins(w: World, e: Event): Option<(ExecutionId, Caller)> {
    match e
    case SubmitEvent(i, x) =>
      if i < |w.submits| && w.submits[i].pc.AcquireJournal?
         && SubmitWorking(SubmitStep(w.db, w.sent, w.submits[i], x).2.pc)
      then Some((Id(w.submits[i]), SubmitCall(i))) else None
    case MutateEvent(i, x) =>
      if i < |w.mutates| && w.mutates[i].pc.AcquireMutation?
         && MutateWorking(MutateStep(w.db, w.sent, w.mutates[i], x).2.pc)
      then Some((w.mutates[i].order.executionId, MutateCall(i))) else None
    case _ => None
  }

  /** A caller's order is current when the stored row is live and no newer. */
  predicate Current(db: Db, o: LocalOrder) {
    && o.executionId in db.orders && !Terminal(db.orders[o.executionId].state)
    && db.orders[o.executionId].filled <= o.filled && db.orders[o.executionId].updatedAt <= o.updatedAt
  }

  /** A mutation begins on a current order; once a later call has begun, the earlier ones stop. */
  predicate Allowed(w: World, h: Holders, e: Event) {
    && (match e
        case SubmitEvent(i, _) =>
          i < |w.submits| && SubmitWorking(w.submits[i].pc) ==>
            Id(w.submits[i]) in h && h[Id(w.submits[i])] == SubmitCall(i)
        case MutateEvent(i, _) =>
          i < |w.mutates| && MutateWorking(w.mutates[i].pc) ==>
            w.mutates[i].order.executionId in h && h[w.mutates[i].order.executionId] == MutateCall(i)
        case _ => true)
    && (e.MutateEvent? && Begins(w, e).Some? ==> Current(w.db, w.mutates[e.call].order))
  }

  function HoldersAfter(w: World, h: Holders, e: Event): Holders {
    if Begins(w, e).Some? then h[Begins(w, e).value.0 := Begins(w, e).value.1] else h
  }

  predicate Orderly(w: World, h: Holders, events: seq<Event>)
    decreases |events|
  {
    events == [] || (Allowed(w, h, events[0]) && Orderly(Step(w, events[0]), HoldersAfter(w, h, events[0]), events[1..]))
  }

  // ----- what the discipline keeps -----

  /** A row and the order a call is still to save over it. */
  ghost predicate Precedes(row: LocalOrder, o: LocalOrder) {
    row.filled <= o.filled && row.updatedAt <= o.updatedAt
  }

  /** A submit that works on its execution saves first, then only over a live row of the same fill and clock. */
  ghost predicate SubmitHolds(db: Db, s: Submit) {
    var id := Id(s);
    && (s.pc.SavePending? ==> id !in db.orders)
    && (SubmitWorking(s.pc) && !s.pc.SavePending? ==>
          id in db.orders && !Terminal(db.orders[id].state) && Precedes(db.orders[id], PendingOrder(s)))
    && (s.pc.JournalOutcome? && s.pc.next.Some? ==> Outcome(PendingOrder(s), s.pc.next.value))
    && (s.pc.SaveOutcome? ==> Outcome(PendingOrder(s), s.pc.order))
  }

  ghost predicate Outcome(pending: LocalOrder, o: LocalOrder) {
    o.executionId == pending.executionId && Precedes(pending, o)
  }

  ghost predicate MutateHolds(db: Db, m: Mutate) {
    var id := m.order.executionId;
    && (MutateWorking(m.pc) ==>
          id in db.orders && !Terminal(db.orders[id].state)
          && db.orders[id].filled <= m.order.filled && db.orders[id].updatedAt <= m.now)
    && (m.pc.SaveMutating? || m.pc.MarkMutationStarted? || m.pc.SendMutation? ==>
          m.kind != Create && Transition(m.order, To(PendingState(m.kind), m.now)) == Ok(m.pc.pending))
    && (m.pc.AttemptOutcome? && m.pc.next.Some? ==> Reported(m, m.pc.next.value))
    && (m.pc.SaveMutated? ==> Reported(m, m.pc.order))
  }

  ghost predicate Reported(m: Mutate, o: LocalOrder) {
    o.executionId == m.order.executionId && m.order.filled <= o.filled && o.updatedAt == m.now
  }

  ghost predicate Holding(w: World, id: ExecutionId, c: Caller) {
    match c
    case SubmitCall(i) => i < |w.submits| && Id(w.submits[i]) == id && SubmitHolds(w.db, w.submits[i])
    case MutateCall(j) => j < |w.mutates| && w.mutates[j].order.executionId == id && MutateHolds(w.db, w.mutates[j])
  }

  /** Rows belong to journaled executions, and every holder still has the row it works over. */
  ghost predicate RowsInv(w: World, h: Holders) {
    && (forall id :: id in w.db.orders ==> id in w.db.journals)
    && (forall id :: id in h ==> Holding(w, id, h[id]))
  }

  /** What happens to a row under the discipline; only recovery touches a terminal one. */
  ghost predicate Advances(row: LocalOrder, after: LocalOrder) {
    row.filled <= after.filled && row.updatedAt <= after.updatedAt
  }

  lemma {:induction false} PendingFields(s: Submit)
    ensures PendingOrder(s).executionId == Id(s) && !Terminal(PendingOrder(s).state)
    ensures forall pc, owns :: PendingOrder(s.(pc := pc, owns := owns)) == PendingOrder(s)
  {
  }

  lemma {:induction false} ClassifiedOutcome(s: Submit, x: Engine.Outcome)
    ensures var pc := Classify(s, x);
            && (pc.JournalOutcome? || pc.SubmitRaised?)
            && (pc.JournalOutcome? && pc.next.Some? ==> Outcome(PendingOrder(s), pc.next.value))
  {
    hide PendingOrder;
  }

  lemma {:induction false} ClassifiedReport(m: Mutate, key: AttemptKey, pending: LocalOrder, x: Engine.Outcome)
    requires m.kind != Create && Transition(m.order, To(PendingState(m.kind), m.now)) == Ok(pending)
    ensures var pc := ClassifyMutation(m, key, pending, x);
            && (pc.AttemptOutcome? || pc.MutateRaised?)
            && (pc.AttemptOutcome? && pc.next.Some? ==> Reported(m, pc.next.value))
  {
  }

  /** Only row `id` may differ, and if it was there it was live and moved forward. */
  ghost predicate OnlyRow(db: Db, after: Db, id: ExecutionId) {
    && (forall e :: e != id ==> (e in after.orders <==> e in db.orders) && (e in db.orders ==> after.orders[e] == db.orders[e]))
    && (id in db.orders ==>
          id in after.orders && Advances(db.orders[id], after.orders[id]) && !Terminal(db.orders[id].state))
  }

  /** A working submit call changes its own row only, and keeps its part of the invariant. */
  lemma {:induction false} SubmitHoldsStep(db: Db, sent: seq<Sent>, s: Submit, x: Input)
    requires SubmitWorking(s.pc) && SubmitHolds(db, s)
    ensures var (after, _, t) := SubmitStep(db, sent, s, x);
            SubmitHolds(after, t) && Id(t) == Id(s) && OnlyRowOrNone(db, after, Id(s))
  {
    PendingFields(s);
    if s.pc.SavePending? || s.pc.SaveOutcome? {
      hide Classify, PendingOrder, Consumable, ExpireDue, JournalFree, SetJournal;
    } else {
      hide Classify, PendingOrder, Consumable, ExpireDue, JournalFree, SaveOrder;
      ClassifiedOutcome(s, x.outcome);
    }
  }

  ghost predicate OnlyRowOrNone(db: Db, after: Db, id: ExecutionId) {
    (after.orders == db.orders || OnlyRow(db, after, id)) && after.journals.Keys == db.journals.Keys
  }

  lemma {:induction false} MutateHoldsStep(db: Db, sent: seq<Sent>, m: Mutate, x: Input)
    requires MutateWorking(m.pc) && MutateHolds(db, m)
    ensures var (after, _, t) := MutateStep(db, sent, m, x);
            && MutateHolds(after, t) && t.order == m.order && OnlyRowOrNone(db, after, m.order.executionId)
            && m.order.executionId in db.orders
  {
    if m.pc.SendMutation? {
      hide ClassifyMutation, RequestBody, SaveOrder, Transition;
      ClassifiedReport(m, m.pc.key, m.pc.pending, x.outcome);
    } else if m.pc.SaveMutated? {
      hide ClassifyMutation, RequestBody, Transition;
    } else {
      hide ClassifyMutation, RequestBody;
    }
  }

  lemma {:induction false} IdleSubmitStep(db: Db, sent: seq<Sent>, s: Submit, x: Input)
    requires !SubmitWorking(s.pc)
    ensures var (after, _, t) := SubmitStep(db, sent, s, x);
            && after.orders == db.orders && Id(t) == Id(s) && db.journals.Keys <= after.journals.Keys
            && (SubmitWorking(t.pc) ==> t.pc.SavePending? && s.pc.AcquireJournal? && Id(s) !in db.journals && Id(s) in after.journals)
  {
    hide PendingOrder, Consumable, ExpireDue;
  }

  lemma {:induction false} IdleMutateStep(db: Db, sent: seq<Sent>, m: Mutate, x: Input)
    requires !MutateWorking(m.pc)
    ensures var (after, _, t) := MutateStep(db, sent, m, x);
            && after.orders == db.orders && t.order == m.order && after.journals == db.journals
            && (MutateWorking(t.pc) ==>
                  && m.pc.AcquireMutation? && t.pc.SaveMutating? && t.kind != Create && t.kind == m.kind && t.now == m.now
                  && Transition(m.order, To(PendingState(m.kind), m.now)) == Ok(t.pc.pending))
  {
    hide Transition, RequestBody;
  }

  /** A current order that may become pending is one to work on. */
  lemma {:induction false} CurrentHolds(db: Db, m: Mutate)
    requires m.pc.SaveMutating? && m.kind != Create && Current(db, m.order)
    requires Transition(m.order, To(PendingState(m.kind), m.now)) == Ok(m.pc.pending)
    ensures MutateHolds(db, m)
  {
  }

  /** A call's part of the invariant looks at its own row only. */
  lemma {:induction false} HoldingElsewhere(w: World, v: World, id: ExecutionId, c: Caller)
    requires Holding(w, id, c)
    requires id in v.db.orders <==> id in w.db.orders
    requires id in w.db.orders ==> v.db.orders[id] == w.db.orders[id]
    requires c.SubmitCall? ==> c.i < |v.submits| && v.submits[c.i] == w.submits[c.i]
    requires c.MutateCall? ==> c.j < |v.mutates| && v.mutates[c.j] == w.mutates[c.j]
    ensures Holding(v, id, c)
  {
    hide PendingOrder, Transition;
  }

  lemma {:induction false} SubmitRows(w: World, h: Holders, i: nat, x: Input)
    requires EngineSafety.Inv(w) && RowsInv(w, h) && i < |w.submits| && Allowed(w, h, SubmitEvent(i, x))
    ensures RowsInv(Step(w, SubmitEvent(i, x)), HoldersAfter(w, h, SubmitEvent(i, x)))
    ensures Undisturbed(w, Step(w, SubmitEvent(i, x)))
  {
    hide SubmitStep, SubmitHolds, MutateHolds, EngineSafety.MutateInv, EngineSafety.SentInv, EngineSafety.JournalsUnique;
    var s := w.submits[i];
    var e := SubmitEvent(i, x);
    var v, g := Step(w, e), HoldersAfter(w, h, e);
    if SubmitWorking(s.pc) {
      SubmitHoldsStep(w.db, w.sent, s, x);
      assert s.owns && Id(s) in w.db.journals by {
        WorkingOwns(w, i);
      }
    } else {
      IdleSubmitStep(w.db, w.sent, s, x);
      IdleHolds(v.db, v.submits[i]);
    }
    forall id | id in g ensures Holding(v, id, g[id]) {
      if g[id] != SubmitCall(i) {
        HoldingElsewhere(w, v, id, g[id]);
      }
    }
  }

  lemma {:induction false} WorkingOwns(w: World, i: nat)
    requires EngineSafety.Inv(w) && i < |w.submits| && SubmitWorking(w.submits[i].pc)
    ensures w.submits[i].owns && Id(w.submits[i]) in w.db.journals
  {
    assert EngineSafety.SubmitInv(w.db, w.sent, w.submits[i]);
  }

  lemma {:induction false} IdleHolds(db: Db, s: Submit)
    requires SubmitWorking(s.pc) ==> s.pc.SavePending? && Id(s) !in db.orders
    ensures SubmitHolds(db, s)
  {
  }

  /** Rows only move forward; terminal ones stay as they are. */
  ghost predicate Undisturbed(w: World, v: World) {
    forall id :: id in w.db.orders ==>
      && id in v.db.orders && Advances(w.db.orders[id], v.db.orders[id])
      && (Terminal(w.db.orders[id].state) ==> v.db.orders[id] == w.db.orders[id])
  }

  lemma {:induction false} MutateRows(w: World, h: Holders, i: nat, x: Input)
    requires RowsInv(w, h) && i < |w.mutates| && Allowed(w, h, MutateEvent(i, x))
    ensures RowsInv(Step(w, MutateEvent(i, x)), HoldersAfter(w, h, MutateEvent(i, x)))
    ensures Undisturbed(w, Step(w, MutateEvent(i, x)))
  {
    hide MutateStep, SubmitHolds, MutateHolds;
    var m := w.mutates[i];
    var e := MutateEvent(i, x);
    var v, g := Step(w, e), HoldersAfter(w, h, e);
    if MutateWorking(m.pc) {
      MutateHoldsStep(w.db, w.sent, m, x);
    } else {
      IdleMutateStep(w.db, w.sent, m, x);
      if MutateWorking(v.mutates[i].pc) {
        CurrentHolds(v.db, v.mutates[i]);
      } else {
        OverHolds(v.db, v.mutates[i]);
      }
    }
    forall id | id in g ensures Holding(v, id, g[id]) {
      if g[id] != MutateCall(i) {
        HoldingElsewhere(w, v, id, g[id]);
      }
    }
  }

  lemma {:induction false} OverHolds(db: Db, m: Mutate)
    requires !MutateWorking(m.pc)
    ensures MutateHolds(db, m)
  {
  }

  lemma {:induction false} RecoverRows(w: World, h: Holders)
    requires RowsInv(w, h)
    ensures RowsInv(Step(w, RecoverAll), h)
    ensures forall id :: id in w.db.orders ==>
              && id in Step(w, RecoverAll).db.orders && Advances(w.db.orders[id], Step(w, RecoverAll).db.orders[id])
              && (!Incomplete(w.db.journals[id]) ==> Step(w, RecoverAll).db.orders[id] == w.db.orders[id])
  {
    var v := Step(w, RecoverAll);
    forall id | id in h ensures Holding(v, id, h[id]) {
      RecoveredHolding(w, id, h[id]);
    }
  }

  lemma {:induction false} RecoveredHolding(w: World, id: ExecutionId, c: Caller)
    requires Holding(w, id, c)
    ensures Holding(Step(w, RecoverAll), id, c)
  {
    hide PendingOrder, Transition, Incomplete;
  }

  /** One allowed event: rows move forward, and a terminal row changes exactly when recovery takes it up. */
  lemma {:induction false} AllowedStep(w: World, h: Holders, e: Event)
    requires EngineSafety.Inv(w) && RowsInv(w, h) && Allowed(w, h, e)
    ensures RowsInv(Step(w, e), HoldersAfter(w, h, e))
    ensures forall id :: id in w.db.orders ==>
              && id in Step(w, e).db.orders && Advances(w.db.orders[id], Step(w, e).db.orders[id])
              && (Terminal(w.db.orders[id].state) ==>
                    (Step(w, e).db.orders[id] != w.db.orders[id] <==>
                     e.RecoverAll? && id in w.db.journals && Incomplete(w.db.journals[id])))
  {
    hide EngineSafety.Inv, Allowed, Begins, SubmitStep, MutateStep, Recover, Holding;
    match e {
      case SubmitEvent(i, x) =>
        if i < |w.submits| {
          SubmitRows(w, h, i, x);
        } else {
          NothingBegins(w, e);
        }
      case MutateEvent(i, x) =>
        if i < |w.mutates| {
          MutateRows(w, h, i, x);
        } else {
          NothingBegins(w, e);
        }
      case RecoverAll =>
        NothingBegins(w, e);
        RecoverRows(w, h);
        forall id | id in w.db.orders && Terminal(w.db.orders[id].state)
          ensures Step(w, e).db.orders[id] != w.db.orders[id] <==> Incomplete(w.db.journals[id]) {
          RowChangesExactly(w, e, id);
          RowsAfter(w, e);
        }
      case _ =>
        NothingBegins(w, e);
        EnvironmentRows(w, h, e);
    }
  }

  lemma {:induction false} NothingBegins(w: World, e: Event)
    ensures e.SubmitEvent? && e.call >= |w.submits| ==> Begins(w, e) == None && Step(w, e) == w
    ensures e.MutateEvent? && e.call >= |w.mutates| ==> Begins(w, e) == None && Step(w, e) == w
    ensures !e.SubmitEvent? && !e.MutateEvent? ==> Begins(w, e) == None
  {
    hide Recover;
  }

  lemma {:induction false} EnvironmentRows(w: World, h: Holders, e: Event)
    requires RowsInv(w, h) && (e.GlobalHalt? || e.Issue?)
    ensures RowsInv(Step(w, e), h) && Step(w, e).db.orders == w.db.orders
  {
    hide SubmitHolds, MutateHolds;
    var v := Step(w, e);
    forall id | id in h ensures Holding(v, id, h[id]) {
      HoldingElsewhere(w, v, id, h[id]);
    }
  }

  /** In an orderly run, whether a recovery finds this execution's journal incomplete. */
  predicate TakenUp(w: World, events: seq<Event>, id: ExecutionId)
    decreases |events|
  {
    events != [] &&
    ((events[0].RecoverAll? && id in w.db.journals && Incomplete(w.db.journals[id])) || TakenUp(Step(w, events[0]), events[1..], id))
  }

  /**
   Under the discipline no stored fill or clock ever goes back, and a terminal row stays as it is
   through the whole run unless a recovery takes its journal up.
  */
  lemma {:induction false} OrderlyFrom(w: World, h: Holders, events: seq<Event>, id: ExecutionId)
    requires EngineSafety.Inv(w) && RowsInv(w, h) && Orderly(w, h, events) && id in w.db.orders
    ensures id in Run(w, events).db.orders && Advances(w.db.orders[id], Run(w, events).db.orders[id])
    ensures Terminal(w.db.orders[id].state) && !TakenUp(w, events, id) ==> Run(w, events).db.orders[id] == w.db.orders[id]
    decreases |events|
  {
    hide EngineSafety.Inv, RowsInv, Allowed, Step;
    if events != [] {
      AllowedStep(w, h, events[0]);
      EngineSafety.StepInv(w, events[0]);
      OrderlyFrom(Step(w, events[0]), HoldersAfter(w, h, events[0]), events[1..], id);
    }
  }

  /** The invariant holds after every orderly run, and what is left of an orderly run is orderly. */
  lemma {:induction false} OrderlyPrefix(w: World, h: Holders, first: seq<Event>, rest: seq<Event>) returns (g: Holders)
    requires EngineSafety.Inv(w) && RowsInv(w, h) && Orderly(w, h, first + rest)
    ensures EngineSafety.Inv(Run(w, first)) && RowsInv(Run(w, first), g) && Orderly(Run(w, first), g, rest)
    ensures Run(w, first + rest) == Run(Run(w, first), rest)
    decreases |first|
  {
    hide EngineSafety.Inv, RowsInv, Allowed, Step;
    if first == [] {
      assert first + rest == rest;
      g := h;
    } else {
      var all := first + rest;
      assert all[0] == first[0] && all[1..] == first[1..] + rest;
      AllowedStep(w, h, first[0]);
      EngineSafety.StepInv(w, first[0]);
      g := OrderlyPrefix(Step(w, first[0]), HoldersAfter(w, h, first[0]), first[1..], rest);
    }
  }

  /**
   Stored rows over orderly runs: from any moment of a run on, the fill and clock of a row never go back,
   and a terminal row does not change unless a later recovery finds its journal incomplete.
  */
  lemma {:induction false} OrderlyRunsNeverRegress(w: World, first: seq<Event>, rest: seq<Event>, id: ExecutionId)
    requires Beginning(w) && Orderly(w, map[], first + rest)
    requires id in Run(w, first).db.orders
    ensures id in Run(w, first + rest).db.orders
    ensures var row, after := Run(w, first).db.orders[id], Run(w, first + rest).db.orders[id];
            && row.filled <= after.filled && row.updatedAt <= after.updatedAt
            && (Terminal(row.state) && !TakenUp(Run(w, first), rest, id) ==> after == row)
  {
    hide Run, Orderly, TakenUp;
    var g := OrderlyPrefix(w, map[], first, rest);
    OrderlyFrom(Run(w, first), g, rest, id);
  }

  // ----- what a save and a recovery write -----

  /** A saved order is stored whole if it is new; otherwise its terms stay and everything else is the order's. */
  lemma {:induction false} SavedExactly(db: Db, o: LocalOrder)
    ensures var after, id := SaveOrder(db, o), o.executionId;
            && after == db.(orders := after.orders) && after.orders.Keys == db.orders.Keys + {id}
            && (forall e :: e in db.orders && e != id ==> after.orders[e] == db.orders[e])
            && (id !in db.orders ==> after.orders[id] == o)
            && (id in db.orders ==>
                  var row, stored := db.orders[id], after.orders[id];
                  && stored.executionId == row.executionId && stored.price == row.price && stored.quantity == row.quantity
                  && stored.filled == o.filled && stored.fees == o.fees && stored.state == o.state
                  && stored.updatedAt == o.updatedAt && stored.reconciliationRequired == o.reconciliationRequired
                  && stored.exchangeOrderId == (if o.exchangeOrderId == None then row.exchangeOrderId else o.exchangeOrderId))
  {
  }

  /** Recovery takes up every journal that is neither reconciled nor proven unsent, and leaves its order unknown. */
  lemma {:induction false} RecoveredExactly(db: Db, e: ExecutionId)
    ensures var after := Recover(db);
            var open := e in db.journals && db.journals[e].state != Reconciled && db.journals[e].state != ProvenUnsent;
            && after.attempts == db.attempts && after.authorizations == db.authorizations
            && (e in after.journals <==> e in db.journals) && (e in after.orders <==> e in db.orders)
            && (e in db.journals ==>
                  after.journals[e] == if open then db.journals[e].(state := RecoveryRequired) else db.journals[e])
            && (e in db.orders ==>
                  after.orders[e] ==
                  if open then db.orders[e].(state := ReconciliationUnknown, reconciliationRequired := true) else db.orders[e])
  {
  }
}
