# Verified model of the forecast-evidence, execution and evaluation core

These modules model six groups of behaviour of the repository and prove what they are for. Each claim holds
for every input, every schedule or every reachable state of the model. `dafny verify dfyconfig.toml` checks
the whole project.

## What is modelled

**One-shot city collector** (`CollectorKeys`, `Collector`, `CollectorEvidence`, `CollectorCourse`,
`CollectorStory`, `CollectorCauses`, `CityStores`, `CityRuns`).
Any number of `run_city` tasks share one create-only object store. A task is a state machine that does one store access,
fetch or clock reading per step; a schedule interleaves the steps and chooses clocks, fetched documents,
store errors and where tasks stop. Names are the real path texts, so disjointness of the key sets is a
theorem about strings. `CollectorCourse` reads a claim holder's course off its own inputs, step by step, and
`CollectorCauses` concludes exactly which inputs lead to each stored object and each status. `CityRuns` writes `run_city` in its own statement order against the mutable store of
`CityStores` and ties it to the state machine.

**Strike ladder and amendment** (`Ladder`, `LadderCodes`, `MarketRules`). The frozen market validator with its check order,
and the depth-neutral view that replaces its depth check. The structural checks are shown to accept exactly
the listings of one ladder, which partitions the integers.

**Crash-safe publication** (`Filesystem`, `Canary`, `CanaryRuns`, `NoReplace`). A directory maps paths to files; each entry
also carries the values it may still have after a power loss, and file data survives only when synced. The
two publication protocols are stepped system call by system call, for any number of concurrent calls, any
kills and any power losses.

**Demo execution engine** (`OrderLifecycle`, `Engine`, `EngineSafety`, `EngineGuards`, `EngineOrders`,
`EngineRows`, `EngineAttempts`, `EngineScenarios`, `EngineObjects`).
`submit` and `mutate` as interleaved steps over the journal, authorization, attempt and order tables, with
failures between any two statements, recovery, halts and newly issued authorizations. `EngineObjects` gives
the stores, the scripted transport and the two calls in their own statement order and ties them to the steps.
`EngineScenarios` holds concrete reachable runs.

**Evaluation ledger and projections** (`Evaluation`, `EvaluationRules`, `Ledger`, `EventBinding`, `Cohorts`,
`CohortRules`, `EventAggregation`).
Scoring a receipt, appending under the conflict rules, selecting the effective attempt, binding a market to
its exchange event, pairing two contenders and averaging per event.

**Interval validators and indexes** (`FeeTimeline`, `Bins`, `Registry`, `SettlementQueues`, `Dedupe`,
`DedupeReasons`). Short
adjacency loops with a global meaning, version histories, a binary heap, and hash tables that stand in for a
scan. `Ordering` and `Text` hold sorting, counting and decimal text.

Hashes are injective constructors or the material they cover, decimals are exact reals, instants and dates
are integers, and everything read from outside is an input. Automatic induction is switched off in every
lemma, so each inductive proof is written out.

## Where the code differs from what it says

- `save_order` compares nothing. Two mutations of one freshly reconciled order can put a stored FILLED row back to
  an open one with no fill (`EngineScenarios.FilledOrderReopened`). `EngineRows.RowChangesExactly` says which events
  do such things, `EngineRows.OrderlyRunsNeverRegress` under which calling discipline none does.
- Its upsert keeps the stored quantity, so an order that carries another one can overfill the row
  (`EngineScenarios.ForeignQuantityOverfills`, `EngineOrders.SaveKeepsAccountingExactly`).
- `ExecutionStore.recover` reopens terminal orders: the journal of every order `submit` accepted or rejected is
  incomplete (`EngineScenarios.RecoveryReopensFilled`, `EngineOrders.SubmitLeavesJournalIncomplete`).
- `_write_create_only` publishes atomically but never syncs the directory, so a normal return can still be lost with
  the power (`NoReplace.NormalReturnLost`), until the entry has survived one loss and never after
  (`NoReplace.PublicationLastsExactly`).
- A PROVEN event binding is downgraded by a later unverified observation of the same identity, without any
  conflict (`EventBinding.ProvenCanBeDowngraded`).
- The market family is in an evaluation's logical material but not in its identity, so re-evaluating a stored
  snapshot under another family is an identity collision, not a replay (`Ledger.ReplayNeedsSameFamily`).
- The TARGET_VERSION_MISMATCH exclusion of a cohort cannot occur (`Cohorts.VersionMismatchUnreachable`), nor can
  the validator's last bounds check (`MarketRules.BoundsNeverAbsent`).
- The fee timeline loop accepts an empty timeline and repeated passes over all time
  (`FeeTimeline.AcceptedWithoutUniqueness`).
- `DedupeIndex` treats an empty id as no answer, so an event with an empty id can be added twice unreported, unless
  similarity catches it (`Dedupe.EmptyIdSlipsThrough`).
- A decrease by zero raises while its request is built (`EngineAttempts.RequestRaisesExactly`), and a cancel proven
  unsent can never be sent again, because its attempt stays journaled (`EngineScenarios.UnsentCancelNeverRetried`,
  `EngineAttempts.SameRequestNeverRetried`).

## Model

| member | source | states |
|---|---|---|
| CollectorKeys.KeysDisjoint | experiments/wn_multicity_cloud_c1_final/cloud_collector.py:171-196 | no object name passes `CityStore._check` for two different approved city/date pairs |
| CollectorKeys.ArtifactAccepted | experiments/wn_multicity_cloud_c1_final/cloud_collector.py:180-196 | every artifact path and the claim path pass their own store's check, and no artifact path is the claim path |
| CollectorKeys.ArtifactPathInjective | experiments/wn_multicity_cloud_c1_final/cloud_collector.py:195-196 | different artifacts (the numbered raw responses included) never share a path |
| Collector.Isolation | experiments/wn_multicity_cloud_c1_final/cloud_collector.py:171-196 | for every interleaving of any number of tasks with adversarial clocks, fetches and store errors, a pair's objects and its tasks' states and statuses equal those of the run in which only that pair's tasks step |
| CollectorEvidence.EvidenceAlways | experiments/wn_multicity_cloud_c1_final/cloud_collector.py:446-725 | the evidence invariant holds for every city and date at every moment of every run |
| CollectorEvidence.SingleAcquisition | experiments/wn_multicity_cloud_c1_final/cloud_collector.py:463-518 | per city and date only one task ever fetches or writes, it fetches weather at most once, and never when it started late |
| CollectorEvidence.CreatesNeverCollide | experiments/wn_multicity_cloud_c1_final/cloud_collector.py:511-518 | the next create of the claim's owner always goes to an unused name, the shared raw-response counter included |
| CollectorEvidence.StoredEvidence | experiments/wn_multicity_cloud_c1_final/cloud_collector.py:611-672 | packet and failure never coexist; a packet states the hashes of the three stored components; the manifest lists exactly the other stored objects with their hashes |
| CollectorEvidence.StatusTruth | experiments/wn_multicity_cloud_c1_final/cloud_collector.py:474-725 | a sealed, failed or missed status means the matching record and manifest are stored; a duplicate claim means nothing was fetched or written |
| CollectorEvidence.ObjectsPersist | experiments/wn_multicity_prospective_v1/policy.py:66-98 | a stored object is never changed or removed by any later run |
| CityStores.CityStore.Exists | experiments/wn_multicity_cloud_c1_final/cloud_collector.py:188-189 | refuses another city's name, otherwise answers from the shared store |
| CityStores.CityStore.Create | experiments/wn_multicity_cloud_c1_final/cloud_collector.py:191-193 | creates only an unused, own name, and records its hash exactly when it was stored |
| CollectorCauses.ArtifactExactly | experiments/wn_multicity_cloud_c1_final/cloud_collector.py:511-655 | over every run: an artifact of the claim holder's attempt is stored exactly when the holder was timely, no earlier step met a fault, a late reading or a failed create, and its own create was stored; and it holds what the holder's inputs brought |
| CollectorCauses.PacketExactly | experiments/wn_multicity_cloud_c1_final/cloud_collector.py:511-655 | over every run: a packet is stored exactly when its claim holder was timely and every step of the attempt was clean, written out step by step: the clock readings at the start, after the credentials and before the market all ahead of the close, no fault at the credentials, the weather fetch and check, the fourteen market responses and the market check, and every create stored |
| CollectorCauses.FailureExactly | experiments/wn_multicity_cloud_c1_final/cloud_collector.py:656-672 | over every run: the failure record states exactly the status and stage of the first problem (DATA_NOT_READY only for that code at the weather, MISSED_SCHEDULE only for a missed window, else FAILED), or MISSED_SCHEDULE at the gate for a late claim |
| CollectorCauses.FailureListing | experiments/wn_multicity_cloud_c1_final/cloud_collector.py:656-672 | the failure record lists exactly what was stored before it (nothing for a late claim), and the claim states its time and lateness |
| CollectorCauses.BooksExactly | experiments/wn_multicity_cloud_c1_final/cloud_collector.py:688-725 | over every run: the delayed raw responses, snapshot, failure note and log are stored exactly when the inputs of the books say so, with their contents |
| CollectorCauses.ReturnedExactly | experiments/wn_multicity_cloud_c1_final/cloud_collector.py:446-725 | over every run: exactly which inputs lead to each returned status, the first problem deciding it |
| CollectorCauses.RecordsHaveHolder | experiments/wn_multicity_cloud_c1_final/cloud_collector.py:511-518 | every stored artifact has a claim holder |
| CollectorCauses.TurnedAwayExactly | experiments/wn_multicity_prospective_v1/policy.py:155-209 | a task without the claim raised only for a first reading outside its day or before the opening, or for a store error; such a reading always stops it |
| CollectorStory.OwnCourse | experiments/wn_multicity_cloud_c1_final/cloud_collector.py:446-725 | at every moment of every interleaved run each task stands where its own inputs put it, and what is stored for it is what they say |
| CollectorStory.Probed | experiments/wn_multicity_prospective_v1/policy.py:188-200 | the five names are looked for in order; a taken one ends the task as a duplicate, a store error raises |
| CollectorCourse.ChronicleGoesOn | experiments/wn_multicity_cloud_c1_final/cloud_collector.py:511-725 | the protocol takes a claim holder, whatever its next input, to the place its inputs name |
| CollectorKeys.ClimbingRefused | experiments/wn_multicity_cloud_c1_final/cloud_collector.py:180-186 | a name with an empty or ".." part under the city's directory is refused |
| CityRuns.RunCity | experiments/wn_multicity_cloud_c1_final/cloud_collector.py:446-725 | `run_city` in its own statement order, to its end, is the protocol's task stepping alone, and ends with exactly the hashes of what it created |
| CityRuns.AcquireClaim | experiments/wn_multicity_prospective_v1/policy.py:188-209 | five probes, then the claim: the task goes on only if it created the claim itself |
| CityRuns.Seal | experiments/wn_multicity_cloud_c1_final/cloud_collector.py:611-655 | components, then the packet over their hashes; any failed create leads to the failure record |
| CityRuns.AloneIsRun | experiments/wn_multicity_cloud_c1_final/cloud_collector.py:446-725 | a city stepping alone is a run of the protocol, so its theorems hold of `RunCity` |
| CityStores.WaitUntil | experiments/wn_multicity_cloud_c1_final/cloud_collector.py:159-168 | returns at the first clock reading that is due |
| CityStores.DelayedBooks | experiments/wn_multicity_cloud_c1_final/cloud_collector.py:400-437 | a snapshot has one book per ticker in order, requested inside the window; it is missed exactly when a request or the completion falls outside |
| Filesystem.WriteAll | scripts/capture_m27l_prospective_forecast.py:179-185 | against any pattern of short writes it ends with exactly the payload, or at the first non-positive answer with a proper prefix |
| Filesystem.CrashKeepsDurable | scripts/wn_p1_prospective_metadata_canary.py:131-152 | a durable directory entry survives a power loss and stays durable |
| Canary.Reachable | scripts/wn_p1_prospective_metadata_canary.py:131-275 | the protocol invariant holds after any interleaving of calls, kills and power losses |
| Canary.GetterAtMostOnce | scripts/wn_p1_prospective_metadata_canary.py:240-275 | over all calls, kills and power losses the source getter runs at most once for the date |
| Canary.AcquiredMeansClaimed | scripts/wn_p1_prospective_metadata_canary.py:131-152 | once the getter has run, the marker entry is durable |
| Canary.ReceiptAbsentOrComplete | scripts/wn_p1_prospective_metadata_canary.py:155-210 | at every moment and after any power loss `receipt.json` is absent or one call's complete synced blob |
| Canary.ReturnIsDurable | scripts/wn_p1_prospective_metadata_canary.py:155-210 | after a normal return the receipt is durable through everything that happens later |
| NoReplace.FinalAbsentOrComplete | scripts/capture_m27l_prospective_forecast.py:152-201 | the final path is absent or one writer's full payload, whatever fails, dies or loses power |
| NoReplace.PublishedNeverChanges | scripts/capture_m27l_prospective_forecast.py:188-201 | over every run, power losses included, published content never changes; it can only be lost with the power |
| NoReplace.NormalReturnMatches | scripts/capture_m27l_prospective_forecast.py:152-201 | after any run, power losses included, the event at which a writer returns normally leaves exactly its payload published |
| NoReplace.OutcomeExactly | scripts/capture_m27l_prospective_forecast.py:188-201 | without failures a free name gets the writer's payload; a taken one is a success exactly when it holds that payload, and is left alone |
| CanaryRuns.QuietCallReturns | scripts/wn_p1_prospective_metadata_canary.py:213-275 | a call to which nothing happens returns, in its window or not: marker, slot and complete receipt are there, durable, and nothing else; the getter ran exactly in the window |
| CanaryRuns.StagedBeforePublished | scripts/wn_p1_prospective_metadata_canary.py:178-195 | a call goes on to publish only with its staged file and its entry durable |
| NoReplace.LossPossibleExactly | scripts/capture_m27l_prospective_forecast.py:152-201 | after any run a power loss can take the published entry away, unless it already survived one: the directory is never synced |
| NoReplace.PublicationLastsExactly | scripts/capture_m27l_prospective_forecast.py:152-176 | what is published lasts through every continuation exactly if its entry already survived a power loss |
| NoReplace.NormalReturnLost | scripts/capture_m27l_prospective_forecast.py:152-176 | a run in which nothing fails, the writer returns normally, and a power loss then removes the file |
| OrderLifecycle.LifecycleInvariant | services/demo_execution/domain.py:231-260 | over any attempted transitions: 0 <= filled <= quantity, fills and clock never go back, FILLED and PARTIALLY_FILLED mean what they say, terminal orders never change |
| OrderLifecycle.TransitionExactly | services/demo_execution/domain.py:231-260 | exactly when a transition succeeds, and every field of the order it gives |
| OrderLifecycle.TableTransposed | services/demo_execution/domain.py:57-114 | the table of moves agrees with the one read backwards: fills are reported only on live orders and only resting orders can be changed |
| OrderLifecycle.ReconciliationOnlyByReconciling | services/demo_execution/domain.py:231-260 | only a reconciled transition clears the reconciliation flag |
| OrderLifecycle.AckIsLegalExactly | services/demo_execution/engine.py:243-253 | the target `mutate` computes is legal from its pending state exactly when old fill <= reported fill <= quantity and fees are not negative |
| EngineSafety.SentIsJournaled | services/demo_execution/engine.py:111-176 | write-ahead: whatever reached the exchange is journaled as possibly sent under its own identities, and its authorization is consumed |
| EngineSafety.SentAtMostOnce | services/demo_execution/engine.py:102-260 | no two create requests share an execution, client order or authorization; no two mutations share an attempt |
| EngineSafety.UnsentIsTrue | services/demo_execution/faults.py:38-60 | a journal row saying "not possibly sent" is true, although PROVEN_UNSENT resets the flag |
| EngineGuards.SentIsEntitled | services/demo_execution/engine.py:111-146 | over every run, each create request that reached the exchange belongs to a call with a clear safety state, the authorized intent and an unexpired authorization; and an earlier event of that call found that authorization issued, unexpired, for this intent, portfolio and safety state, nothing halted and all compliant |
| EngineGuards.SubmitRefusedExactly | services/demo_execution/engine.py:111-126 | exactly when a `submit` call is refused before the journal: it then changes and sends nothing, otherwise it owns one new journal row |
| EngineGuards.ConsumedExactly | services/risk_engine/authorization.py:413-465 | the consume step expires exactly what is due and consumes exactly an issued, valid, matching authorization, in their fields |
| EngineGuards.MutationIsEntitled | services/demo_execution/engine.py:191-222 | over every run, each mutation that reached the exchange belongs to a call with a clear safety state on an open order with an exchange id and no pending reconciliation, and carries the request asked for |
| EngineSafety.SubmitOutcomes | services/demo_execution/engine.py:139-176 | `submit` returns an order exactly for a response; the journal flag says whether the request reached the exchange; nothing more is written exactly on an interruption; each answer records the state and saves the order it calls for, field by field |
| EngineSafety.MutateOutcomes | services/demo_execution/engine.py:224-260 | `mutate` raises exactly on an interruption, an illegal report or a proven-unsent request. Of an acknowledged fill: FILLED iff it is the quantity, PARTIALLY_FILLED iff strictly between the old fill and the quantity, CANCELED iff the old fill below the quantity for a cancel, ACCEPTED iff the same for an amend or decrease; RECONCILIATION_UNKNOWN iff nothing was acknowledged; fill and fees are the reported ones or the order's own |
| EngineObjects.FaultOutcomes | services/demo_execution/faults.py:38-60 | which scripted fault reaches the exchange, raises, accepts, rejects or leaves the order unknown |
| EngineRows.SavedExactly | services/demo_execution/store.py:197-218 | every field of the row a save leaves, new or known |
| EngineRows.RecoveredExactly | services/demo_execution/store.py:320-334 | recovery takes up exactly the journals neither reconciled nor proven unsent, and marks their orders unknown and unreconciled |
| EngineAttempts.RequestExactly | services/demo_execution/adapter.py:74-108 | which request a mutation asks for, kind by kind |
| EngineOrders.PersistedOrdersExact | services/demo_execution/store.py:197-218 | over every run, recoveries included, stored rows keep exact accounting against their execution's quantity, given callers' orders with that quantity |
| EngineOrders.SaveKeepsAccountingExactly | services/demo_execution/store.py:197-218 | the upsert keeps the stored quantity, so a valid order spoils a valid row exactly when its fill does not fit that quantity |
| EngineScenarios.ForeignQuantityOverfills | services/demo_execution/store.py:197-218 | a reachable run in which a valid order with another quantity leaves a stored row filled beyond its quantity |
| EngineRows.StoredTermsPermanent | services/demo_execution/store.py:197-218 | over every run a stored row stays, its price and quantity never change and its exchange id is never lost |
| EngineRows.RowChangesExactly | services/demo_execution/store.py:197-218 | over every event of every state: when a stored fill or clock goes back, and when a terminal row changes, over all four saves and recovery |
| EngineRows.OrderlyRunsNeverRegress | services/demo_execution/engine.py:102-260 | if mutations begin on current orders and superseded calls stop, no stored fill or clock goes back in any run, and a terminal row changes only when recovery takes up its journal |
| EngineScenarios.FilledOrderReopened | services/demo_execution/engine.py:217-260 | without that, a reachable run of two mutations of one fresh order, no recovery: a stored FILLED row is reopened with no fill |
| EngineScenarios.RecoveryReopensFilled | services/demo_execution/store.py:320-334 | a reachable stored FILLED row that recovery reopens |
| EngineAttempts.RequestRaisesExactly | services/demo_execution/adapter.py:74-108 | which mutations raise while their request is built, a zero `reduce_by` among them |
| EngineAttempts.RefusedExactly | services/demo_execution/engine.py:191-221 | apart from failing statements a call journals its attempt exactly when order, request and attempt are all in order |
| EngineAttempts.RefusedForever | services/demo_execution/engine.py:191-221 | a refused call never journals, stores or sends anything in any run |
| EngineAttempts.AttemptsPermanent | services/demo_execution/store.py:156-187 | an attempt once journaled stays journaled over every run, whatever became of its request |
| EngineAttempts.SameRequestNeverRetried | services/demo_execution/store.py:156-179 | so every later mutation with the same request raises and changes nothing, in every continuation |
| EngineScenarios.UnsentCancelNeverRetried | services/demo_execution/engine.py:226-234 | a reachable run whose cancel is proven unsent, after which no continuation can cancel again |
| EngineOrders.NothingMutatedBeforeReconciliation | services/demo_execution/engine.py:191-192 | a call on an order that needs reconciliation never journals, stores or sends anything |
| EngineOrders.SubmitLeavesJournalIncomplete | services/demo_execution/engine.py:139-176 | every order `submit` saves after an answer has an incomplete journal, so recovery reopens it |
| EngineObjects.FaultExchange.Call | services/demo_execution/faults.py:42-60 | pops the script and records the request exactly when the answer is not a stop before sending; an exhausted script raises |
| EngineObjects.ExecutionStore.SaveOrder | services/demo_execution/store.py:197-218 | inserts a new row whole; a stored one keeps its price, its quantity and a known exchange id |
| EngineObjects.ExecutionStore.AcquireJournal | services/demo_execution/store.py:110-146 | creates a journal exactly when the execution, client order and authorization are all new |
| EngineObjects.ExecutionStore.JournalState | services/demo_execution/store.py:148-154 | updates one journal's state and flag and nothing else |
| EngineObjects.ExecutionStore.AcquireMutation | services/demo_execution/store.py:156-179 | creates an attempt exactly when no identical one exists |
| EngineObjects.ExecutionStore.MutationState | services/demo_execution/store.py:181-187 | updates one attempt's state and flag and nothing else |
| EngineObjects.ExecutionStore.Recover | services/demo_execution/store.py:320-334 | marks exactly the incomplete journals and their orders, and reports which |
| EngineObjects.AuthorizationStore.Consume | services/risk_engine/authorization.py:413-465 | expires what is due, then consumes exactly an issued, unexpired authorization of the call's intent, portfolio and safety state |
| EngineObjects.ExecutionEngine.Submit | services/demo_execution/engine.py:102-176 | `submit` in its own statement order is the protocol's call stepping alone |
| EngineObjects.ExecutionEngine.Mutate | services/demo_execution/engine.py:178-260 | `mutate` in its own statement order is the protocol's call stepping alone |
| Evaluation.EvaluateValid | services/agent_control_center/evaluation.py:268-416 | every evaluation is valid, and an eligible one scores a finalized, matched, binary outcome determined after the receipt, with a Brier score in the unit interval |
| EvaluationRules.RefusedExactly | services/agent_control_center/evaluation.py:286-292 | exactly when an evaluation is refused, and with which error |
| EvaluationRules.EligibilityExactly | services/agent_control_center/evaluation.py:279-340 | the exact condition of each eligibility in the fields of receipt, settlement and target |
| EvaluationRules.ScoresExactly | services/agent_control_center/evaluation.py:341-375 | against what the side realized: (p - y)^2 for the model, (q - y)^2 for the market exactly when there is a price, their difference, and y - q - fees - slippage exactly when all three are known; no score unless ELIGIBLE |
| EvaluationRules.CarriedOver | services/agent_control_center/evaluation.py:376-408 | everything else is carried over from the inputs |
| EvaluationRules.SameTrackExactly | services/agent_control_center/evaluation.py:87-114 | two settlements are on one track exactly when they differ in nothing but the four maturation fields |
| EvaluationRules.EffectiveIsPreferred | services/agent_control_center/evaluation.py:492-522 | the effective attempt is preferred to every other of its receipt: ELIGIBLE over mismatch over not final over leakage over unproven over unsupported, then the later finalization, the later evaluation, the greater id |
| Evaluation.GreatestIsGreatest | services/agent_control_center/evaluation.py:513-522 | the selected attempt is greatest by rank, finalization, evaluation time and id |
| Evaluation.EffectiveEvaluations | services/agent_control_center/evaluation.py:502-522 | the grouping loop returns exactly the effective attempts, one per receipt, in receipt order |
| Evaluation.EffectiveOrderIndependent | services/agent_control_center/evaluation.py:502-522 | the effective attempt of a receipt does not depend on row order |
| Evaluation.EffectiveListOrderIndependent | services/agent_control_center/evaluation.py:502-522 | nor does the whole returned list |
| Ledger.EvaluationStore.Append | services/agent_control_center/evaluation_store.py:79-138 | inserts, replays or refuses by the conflict rules, and changes the table only on insertion |
| Ledger.EvaluationStore.EffectiveForReceipt | services/agent_control_center/evaluation_store.py:180-187 | the stored projection is the effective attempt of the receipt's rows |
| Ledger.VerdictExactly | services/agent_control_center/evaluation_store.py:79-138 | the exact condition of each verdict over the stored rows |
| Ledger.LedgerInvariant | services/agent_control_center/evaluation_store.py:89-138 | after any appends each receipt/policy has at most one ELIGIBLE row and one settlement track, identities are unique and earlier rows are still in place |
| Ledger.EffectiveRankMonotone | services/agent_control_center/evaluation.py:492-522 | a receipt's effective rank never decreases |
| Ledger.EligibleIsPermanent | services/agent_control_center/evaluation.py:492-522 | once the effective attempt is ELIGIBLE no later append changes it |
| Ledger.LedgerReadOrder | services/agent_control_center/evaluation_store.py:180-187 | the projection of a ledger does not depend on read order |
| Ledger.MaturationVerdict | services/agent_control_center/evaluation_store.py:89-114 | what appending a lifecycle snapshot does: a replay, an insertion, or a refused second final |
| Ledger.MaturationNeverConflicts | services/agent_control_center/evaluation.py:87-114 | snapshots that differ only in maturation never raise a lifecycle conflict or identity collision; a refusal is exactly a second final |
| Ledger.ReplayChangesNothing | services/agent_control_center/evaluation.py:247-265 | re-evaluating a stored snapshot at another time is a replay and leaves the ledger unchanged |
| Ledger.ReplayNeedsSameFamily | services/agent_control_center/evaluation.py:247-265 | it is a replay exactly when the market family is the stored one; otherwise an identity collision |
| EventBinding.BindMarketEvent | services/agent_control_center/event_evidence.py:422-575 | the imperative binding computes the binding of the set of observations |
| EventBinding.BindingUnique | services/agent_control_center/event_evidence.py:422-575 | a set of observations, in any order and with repeats, has exactly one binding |
| EventBinding.VerdictExactly | services/agent_control_center/event_evidence.py:422-575 | each verdict's exact condition in the fields of the observations |
| EventBinding.ConflictIsPermanent | services/agent_control_center/event_evidence.py:422-575 | CONFLICTED stays CONFLICTED as observations arrive and as-of grows |
| EventBinding.IdentityNeverSwitches | services/agent_control_center/event_evidence.py:422-575 | a bound event and series stay the same or become a conflict |
| EventBinding.FutureHasNoEffect | services/agent_control_center/event_evidence.py:422-575 | observations after as-of matter exactly when they reuse an id |
| EventBinding.ProvenExactly | services/agent_control_center/event_evidence.py:525-560 | PROVEN exactly when the latest eligible observation is archive-verified |
| EventBinding.ProvenCanBeDowngraded | services/agent_control_center/event_evidence.py:525-560 | a later unverified observation of the same identity takes PROVEN away |
| Cohorts.GroupRows | services/agent_control_center/comparison.py:459-485 | one contender's pass groups the scored rows by unit and excludes each other row; it refuses exactly when an eligible row disagrees |
| Cohorts.DecideUnits | services/agent_control_center/comparison.py:488-513 | the unit loop decides every unit in order |
| Cohorts.BuildCohort | services/agent_control_center/comparison.py:427-549 | a cohort exists exactly when all eligible rows agree, and is then the pairing's cohort |
| Cohorts.CompareRows | services/agent_control_center/comparison.py:437-457 | the window filter and effective selection give the pairing the cohort is built from |
| Cohorts.CohortOrderIndependent | services/agent_control_center/comparison.py:427-549 | the cohort does not depend on the order in which rows are read |
| Cohorts.CohortConserves | services/agent_control_center/comparison.py:459-513 | every unit with a scored row is decided exactly once, every other row has its own exclusion, and the counts add up |
| Cohorts.SharedExactly | services/agent_control_center/comparison.py:488-513 | a unit is shared exactly when each contender has one scored row for it, and the pair is those two rows |
| CohortRules.ExcludedExactly | services/agent_control_center/comparison.py:459-513 | exactly what is excluded and why: a row not eligible, a unit with two rows on a side, A_ONLY with B lacking it, B_ONLY with A lacking it |
| CohortRules.BucketCount | services/agent_control_center/comparison.py:467-485 | a unit's bucket holds exactly the rows scored for it, field by field |
| CohortRules.CohortExistsExactly | services/agent_control_center/comparison.py:459-466 | between contenders of one store a cohort exists exactly when every eligible effective row is comparable, of the target version and scored |
| CohortRules.WindowExactly | services/agent_control_center/comparison.py:439-447 | the window is closed at both ends and an absent family admits all |
| Cohorts.MeansExactly | services/agent_control_center/comparison.py:573-600 | the means are the summed scores of the shared pairs over their number |
| Cohorts.VersionMismatchUnreachable | services/agent_control_center/comparison.py:465-482 | no cohort ever contains a TARGET_VERSION_MISMATCH exclusion |
| Cohorts.SwapMirrors | services/agent_control_center/comparison.py:427-549 | swapping contenders keeps the shared units with pairs reversed and mirrors every exclusion, counting repeats |
| Cohorts.SharedBriers | services/agent_control_center/comparison.py:573-581 | every shared pair carries both Brier scores, so the metrics never find one missing |
| Cohorts.MetricsAntisymmetric | services/agent_control_center/comparison.py:584-604 | the mean of differences is the difference of means, and swapping contenders negates it |
| EventAggregation.EventOfExactly | services/agent_control_center/event_evidence.py:986-1000 | a market counts towards the event of its bound row, proven or not, and otherwise towards none |
| EventAggregation.GroupByEvent | services/agent_control_center/event_evidence.py:986-1000 | grouping succeeds exactly when every market has a candidate binding, and keeps each event's differences in order |
| EventAggregation.Aggregate | services/agent_control_center/event_evidence.py:972-1002 | reports exactly when markets are distinct and bound: one row per event in event order with its count and mean |
| EventAggregation.EventRowsConserve | services/agent_control_center/event_evidence.py:972-1002 | the count-weighted event rows sum to the total over all markets, and their counts to the market count |
| EventAggregation.CohortByEventConserves | services/agent_control_center/event_evidence.py:950-1002 | so the event rows of a cohort carry exactly its paired mean |
| FeeTimeline.CheckTimeline | scripts/validate_cpi_p9b_fee_authority.py:177-197 | the adjacency loop reports the first defect, or acceptance |
| FeeTimeline.DefectExactly | scripts/validate_cpi_p9b_fee_authority.py:177-197 | the verdict is the first defect of the first unsound regime, in the regimes' fields |
| FeeTimeline.AcceptedCountsOpenEnds | scripts/validate_cpi_p9b_fee_authority.py:177-212 | in an accepted timeline every date matches exactly as many regimes as are open-ended |
| FeeTimeline.OneForAll | scripts/validate_cpi_p9b_fee_authority.py:204-213 | exactly one match for one date holds iff it holds for every date iff exactly one regime is open-ended |
| FeeTimeline.AcceptedIffTiling | scripts/validate_cpi_p9b_fee_authority.py:177-212 | accepted with one open end if and only if the regimes run forward in start order, are safe, and cover every date exactly once |
| FeeTimeline.AcceptedWithoutUniqueness | scripts/validate_cpi_p9b_fee_authority.py:177-197 | the loop alone also accepts an empty timeline and two passes over all time |
| FeeTimeline.AcceptedIsSafe | scripts/validate_cpi_p9b_fee_authority.py:187-193 | no regime of an accepted timeline that is not exact can be acted on |
| FeeTimeline.CoverMarkets | scripts/validate_cpi_p9b_fee_authority.py:199-213 | covers every market with its one regime, or refuses exactly for a repeated market or a date without exactly one regime |
| FeeTimeline.MatchingIsAllOrNothing | scripts/validate_cpi_p9b_fee_authority.py:204-213 | with an accepted timeline all markets match or none does |
| FeeTimeline.UsableMeansExact | scripts/validate_cpi_p9b_fee_authority.py:214-231 | a market is usable only under the one covering regime being exact, and only then quotes its formula |
| Bins.ValidateBins | services/contract_intelligence/registry.py:58-92 | the sort and the scan report the relationship of the bins |
| Bins.CompleteTiles | services/contract_intelligence/registry.py:79-92 | COMPLETE means each point of the span lies in exactly one half-open bin |
| Bins.StatusMeaning | services/contract_intelligence/registry.py:79-92 | for bins with lower < upper: COMPLETE iff every point of the span is in exactly one bin; GAP gives an uncovered point, OVERLAP a doubly covered one |
| Bins.SpecMeaning | services/contract_intelligence/registry.py:58-78 | each comparator's own range, and which specs are not supported |
| Bins.EmptyBinOverlaps | services/contract_intelligence/registry.py:87-91 | without lower < upper that fails: for two specs, an empty bin inside another is reported as an overlap though no point is in both |
| Bins.RelationOrderIndependent | services/contract_intelligence/registry.py:58-92 | the status, and the market list of a supported event, do not depend on the order of the specs |
| Registry.ContractRegistry.Add | services/contract_intelligence/registry.py:34-44 | the same semantics again change nothing; otherwise the old version is retired and named as superseded |
| Registry.ContractRegistry.Invalidate | services/contract_intelligence/registry.py:46-51 | invalidates the newest version only and logs it; an unknown market is ignored |
| Registry.OfferedExactly | services/contract_intelligence/registry.py:34-44 | version by version what an offer leaves |
| Registry.InvalidatedExactly | services/contract_intelligence/registry.py:46-51 | version by version what an invalidation leaves |
| Registry.HistoriesAreChains | services/contract_intelligence/registry.py:29-55 | over every run a history is a supersession chain with only the newest version in force, and recorded versions are never rewritten or reinstated |
| Registry.SameMeaningNeverReinstates | services/contract_intelligence/registry.py:34-37 | offering unchanged semantics never brings a retired contract back |
| Ladder.CheckMiddle | experiments/wn_multicity_prospective_v1/policy.py:287-296 | the loop over the sorted buckets accepts exactly the rungs of the base |
| Ladder.CheckStructure | experiments/wn_multicity_prospective_v1/policy.py:269-296 | the sibling, shape, bounds, tail and bucket checks in order, with the first failure's code |
| Ladder.AcceptedIsLadder | experiments/wn_multicity_prospective_v1/policy.py:269-296 | accepted siblings, in any order, are the six contracts that the base alone determines, tickers included |
| Ladder.StructureExactly | experiments/wn_multicity_prospective_v1/policy.py:269-296 | the structural checks accept exactly the listings of a ladder at some integer base, in any order |
| LadderCodes.CodeExactly | experiments/wn_multicity_prospective_v1/policy.py:269-296 | the exact condition of each structural complaint in the siblings' fields |
| LadderCodes.TickerTexts | experiments/wn_multicity_prospective_v1/policy.py:285-296 | tail and bucket tickers as they are written, negative bases included |
| Ladder.LadderPartitions | experiments/wn_multicity_prospective_v1/policy.py:344-349 | every integer settles exactly one contract of a ladder |
| Ladder.AcceptedPartitionsIntegers | experiments/wn_multicity_prospective_v1/policy.py:269-296 | so every integer settles exactly one of the six accepted siblings |
| MarketRules.ValidateMarket | experiments/wn_multicity_prospective_v1/policy.py:256-341 | the checks in order, with the first failure's code |
| MarketRules.ValidExactly | experiments/wn_multicity_prospective_v1/policy.py:256-341 | an event is accepted exactly when event and series match, the one source is given, the six siblings list a ladder, and each is named for the event, quotes both rule texts, is active, without a result, quoted, two sided, open at the decision and retrieved within five minutes of it |
| MarketRules.SiblingReasonExactly | experiments/wn_multicity_prospective_v1/policy.py:297-341 | each per-sibling reason is given exactly as the first complaint about the first unsound sibling |
| MarketRules.EventReasonExactly | experiments/wn_multicity_prospective_v1/policy.py:256-296 | the event's own reasons, each exactly, in their order |
| MarketRules.ValidEventPartitionsIntegers | experiments/wn_multicity_prospective_v1/policy.py:256-341 | the siblings of an accepted event partition the integers |
| MarketRules.BoundsNeverAbsent | experiments/wn_multicity_prospective_v1/policy.py:334-341 | the final per-sibling bounds check can never fire |
| MarketRules.AmendmentIsConservative | experiments/wn_multicity_cloud_c1_final/cloud_collector.py:309-330 | the frozen validator accepts an event exactly when it accepts the depth-neutral view and every sibling is EXECUTABLE |
| MarketRules.OnlyDepthIsRelaxed | experiments/wn_multicity_cloud_c1_final/cloud_collector.py:317-330 | with books present the two verdicts are the same unless the frozen one is MARKET_DEPTH_MISSING |
| MarketRules.AcquireMarket | experiments/wn_multicity_cloud_c1_final/cloud_collector.py:395-397 | acquisition succeeds exactly when the view is accepted, keeps the real books and reports each status |
| MarketRules.AllExecutableMeansFrozen | experiments/wn_multicity_cloud_c1_final/cloud_collector.py:395-397 | the frozen policy accepts exactly the acquired events whose markets all report EXECUTABLE |
| SettlementQueues.SiftDown | services/contract_intelligence/settlement.py:84-108 | the insertion step of the binary heap restores heap order and keeps the items |
| SettlementQueues.SiftUp | services/contract_intelligence/settlement.py:110-111 | the removal step of the binary heap restores heap order and keeps the items |
| SettlementQueues.SettlementQueue.Add | services/contract_intelligence/settlement.py:84-108 | adds one item with the next arrival counter and keeps all others |
| SettlementQueues.SettlementQueue.Pop | services/contract_intelligence/settlement.py:110-111 | returns the n least items in ascending priority and conserves the rest |
| SettlementQueues.PopTwice | services/contract_intelligence/settlement.py:110-111 | pop(a) then pop(b) returns what pop(a+b) returns |
| SettlementQueues.QueuedOrder | services/contract_intelligence/settlement.py:84-108 | the priority triple orders requests by determined, closed, other; then held; then due; then arrival |
| SettlementQueues.NothingOvertaken | services/contract_intelligence/settlement.py:84-111 | what is popped later or stays behind never comes before what was popped: determined first, then closed, held first within a rank, then the older, then the earlier arrival |
| SettlementQueues.TakesCompose | services/contract_intelligence/settlement.py:110-111 | taking a then b items is taking a + b |
| SettlementQueues.TakesUnique | services/contract_intelligence/settlement.py:110-111 | with distinct counters there is one way to take n items |
| Dedupe.DedupeIndex.Classify | services/breaking_signals/dedupe.py:29-63 | the table decisions equal a first-match scan of the history in the order provider id, URL, raw hash, normalized hash, then the near-duplicate fallback |
| Dedupe.DedupeIndex.Add | services/breaking_signals/dedupe.py:65-75 | keeps the tables an index of the history, first writer winning, and decides by the history before the event |
| Dedupe.Ingest | services/breaking_signals/dedupe.py:65-75 | over a whole run each decision is the scan of what was added before |
| DedupeReasons.DecisionExactly | services/breaking_signals/dedupe.py:29-63 | the reported reason and id: the first of provider id, URL, raw hash and text that names an earlier event by its earliest holder, else the first similar event in the order of first addition |
| Dedupe.FirstIdMeaning | services/breaking_signals/dedupe.py:65-75 | a table answers with the id of the earliest event sharing the key |
| Dedupe.DuplicatesStayDuplicates | services/breaking_signals/dedupe.py:29-51 | what the tables report as a duplicate they go on reporting |
| Dedupe.ReportedExactly | services/breaking_signals/dedupe.py:29-63 | an event is reported exactly when some key's earliest holder has a non-empty id or an earlier event is similar |
| Dedupe.EventsOfMeaning | services/breaking_signals/dedupe.py:53-54 | similarity is asked about each id's last added event |
| Dedupe.ReAddedExactly | services/breaking_signals/dedupe.py:29-63 | re-adding is reported exactly when some key's earliest holder has a non-empty id or an earlier event is similar |
| Dedupe.ReAddedIsDuplicate | services/breaking_signals/dedupe.py:48-51 | with non-empty ids throughout, re-adding is always reported |
| Dedupe.EmptyIdSlipsThrough | services/breaking_signals/dedupe.py:48-63 | an event with an empty id, added twice, goes unreported exactly when it does not count as similar to itself |

## Left out

- Network, Earth Engine, cloud storage, OAuth, subprocess and argument handling: their results are inputs.
- JSON, SHA-256, SQL and regular-expression text: documents, identities and tables are values and finite maps.
- Decimal rounding at 28 digits, negative zero and NaN: reals are exact, so decimals that differ only in text ("1" and "1.00") are one value.
- An ambiguous object-store create (stored, but reported as failed): create stores or raises without effect.
- The fetch identity checks at the start of `acquire_market` and the sampling in `ee_weather`: an acquired document is an arbitrary value or a failure.
- `validate_weather`, `grid_matches` and the diagnostics checks: per-row range checks only.
- `run_offline_city`: a shorter form of the collector with the same claim and store discipline.
- Collector.GateVerdict: does not distinguish the refusals of `gate`, because each ends the task before the claim.
- The file-descriptor identity checks (`_assert_root_binding`, `_assert_claim_binding`): a failed check is a failed operation.
- Canary.ReceiptAbsentOrComplete: does not say a raised capture leaves no receipt, because retraction is best effort and a complete receipt may stay.
- `capture_one` and `_write_create_only` as single methods: they are stepped on values, one system call at a time, because kills and power losses strike between any two calls; exception texts and receipt fields are not captured.
- Price and quantity after an amend or decrease: the code leaves both unchanged on the order, and so does the model.
- Order lineage, fills, websocket ingestion and queue observations of the execution store: separate tables.
- Uniqueness conflicts inside `save_order`: folded into a failing statement.
- EngineOrders.PersistedOrdersExact: does not cover callers' orders whose quantity is not their execution's, because `EngineScenarios.ForeignQuantityOverfills` shows it false there.
- The reconciliation that turns a stored order into a caller's current one: it is outside the engine, so callers' orders are inputs.
- EventBinding.BindMarketEvent: does not look inside `_verify_receipt`; the archive's verdict is a predicate.
- Event manifests, sufficiency assessment and `compare_from_store`: counts and policies over these projections.
- Cohorts.BuildCohort: does not sort the exclusions or compute the cohort id; exclusions are compared as a bag.
- Cohorts.MetricsAntisymmetric: does not cover the optional market-relative means and the decision counts.
- Per-event fee coverage status, the counts of the fee report and the frozen-file identity checks.
- Dedupe.DedupeIndex.Classify: does not define the near-duplicate similarity; it is an arbitrary relation applied after the tables in insertion order.
- `recirculation_flags`, `independent_chains`, calibration and performance summaries: single expressions.
- The contract-language parser and the constant-off governance modules.
