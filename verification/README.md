# Drenyra Engram: verified model

Drenyra Engram keeps an accounting memory: revisions of accounting facts that are gated by human decisions, linked to
evidence, related by judgments and committed by signed, hash-chained receipts. It also exports an audit bundle that can
be verified offline. This project models three parts of it and proves what they promise.

**The store** (`store/memory-store.ts`). `StoreModel`, `JudgmentModel` give each operation as a function from one store
value to the next. `Store.InMemoryMemoryStore` is the class with the source's fields, and each of its methods is proved
to do exactly what the function says, to leave the store unchanged when it refuses, and to keep its indexes exact. The
theorems in `StoreTheorems`, `StoreRouting`, `StoreMisrouting`, `StoreCollisions`, `StoreIdempotence`,
`StoreJudgmentLedger`, `StoreRows` and `StoreRuns` speak about every run of the operations from the empty store.
`StoreDecisions`, `StoreVerdicts` and `StoreLifecycle` say, on the fields of rows and commands, exactly when each
operation takes effect, why it is refused, and what follows for every run; `StoreJournal`, `StoreReceipts`,
`StoreJudgments` and `StoreRelations` reconcile the records of a run with each other: receipts, events, log, relations
and rows. `Verification` and `SupersessionWalk` hold the checks of the independent verifier, and the theorems connect
the two: what the store writes is what the checks accept.

**The audit bundle** (`internal/core/evidence_export.go`, `internal/core/evidence_export_verify.go`). `ExportOrdinals`
reconstructs the chain order from hash links and `ExportArrangement` says when there is one, `ExportReceipts`,
`ExportRows` and `ExportOrder` say what canonicalization delivers, `ExportBundle` sorts the arrays in place, and
`ExportVerify`, `ExportAudit`, `ExportChains` and `ExportMeaning` say what a passed report means.

**Encodings and read models.** `Json`, `Receipts`, `Envelope`, `EnvelopeRefs`, `ChainKeys`, `Kernel` for what receipts, envelopes
and chain keys commit to;
`Framing`, `ActEvidence`, `FiscalScope`, `FiscalScopeJson` for byte framings and the hand-written scanner;
`PeriodComparison` and `PeriodWords`, `Search` and `SearchWords`, `ReviewQueue`, `Reconstructibility`, `RuleVersions` and `TopicFold` for the views.

Digests, signatures, text folding, clocks and identifiers are parameters: fields of `Primitives`, `Checkers`,
`Platform` and `Formats` that the theorems quantify over. Where a theorem needs
a digest without collisions, it says "or these two inputs collide", or names the assumption. Some theorems assume that
digests are never empty.

Where the code and its comments disagree, the model follows the code:

- `refSetsEqual` is documented as set equality and decides multiset equality (`PeriodComparison.SetEqualityIff`). Stored
  evidence references never repeat; rule references do when a save without links names one twice
  (`StoreRows.RefsOfRows`, `StoreRows.RepeatedRuleRefsAreStored`).
- A save with rule links but without rule references stores no reference of its links (`StoreRows.SavedRuleRefsIff`).
- `verifySupersessionChain` does not look at where a link points (`Verification.WalkRoutingIsNotChecked`).
- `successorOf` prefers a confirmed 'supersedes' judgment over the chain's own successor, so such a judgment from a
  current row makes its walk fail (`StoreRouting.StepRoutingIff`, `StoreMisrouting.MisroutingIsReachable`).
- An approval through the gate and a rule link change the envelope without a receipt that commits the change
  (`StoreRuns.StepContinuityIff`, `Kernel.GateApprovalsBreak`, `Kernel.RuleLinksBreak`).
- The gate checks three targets and passes any other one on (`StoreTheorems.UncheckedTargetReopens`).
- Rejections and returns share one command hash, and so do confirmations and rejections of judgments, so a repeated
  request is answered for the operation that was recorded (`StoreIdempotence.ReviewReplays`,
  `StoreJudgmentLedger.DecisionsReplay`).
- The search filters by kind, status and effect before it keeps the latest revision of a chain, so a filter can bring
  a superseded revision back: exactly when all its later revisions fail the filters (`Search.SupersededIsHitIff`).
- NUL is allowed in names: a company scope can share its chain with another one exactly in the cases of
  `ChainKeys.TwinIff`, and then the receipt of a supersession fails its scope check (`StoreTheorems.ReceiptScopeIff`,
  `StoreCollisions.SplittableScopesAreTakenOver`).
- The two reference lists of an envelope are joined by their own separator: other lists give the same preimage
  exactly in the cases of `EnvelopeRefs.RefsAreAmbiguousIff`.
- Rule revisions without declared windows overlap for ever (`RuleVersions.OpenRevisionsOverlap`).

To check the project: `dafny verify dfyconfig.toml`.

## Model

| member | source | states |
|---|---|---|
| Store.InMemoryMemoryStore.constructor | store/memory-store.ts:345-389 | A new store is empty and its indexes are exact. |
| Store.InMemoryMemoryStore.FindLatestReceiptHash | store/memory-store.ts:977-997 | The digest of the newest receipt of a subject, "" when there is none. |
| Store.InMemoryMemoryStore.EmitReceipt | store/memory-store.ts:965-975 | With a signer, exactly one receipt is appended, linked to the subject's newest one; without, nothing changes. |
| Store.InMemoryMemoryStore.Save | store/memory-store.ts:391-600 | A save checks its rule links against the stored rules, appends the next revision, makes the current one of its chain give way when it may, records relation and receipts; a refused save changes nothing. |
| StoreLifecycle.SaveStoresIff | store/memory-store.ts:391-600 | A save stores a row exactly when topic and title are not blank, the validators pass, the links are well formed and consistent and every link hits a stored rule of its topic and tenant; the row carries the input field by field, and is active without a fiscal effect and pending with one. |
| StoreLifecycle.RowsCarryTheirInput | store/memory-store.ts:457-490 | Every row of every run was stored by one save of the run, under that save's guards, and still carries what that save was given. |
| StoreLifecycle.SaveRefusals | store/memory-store.ts:391-455 | The code of a refused save names a field that is blank or invalid, or a link that is malformed, contradicted, of another instant, or without its target, in exactly that way. |
| StoreLifecycle.EffectsDecideTheGate | lifecycle/transitions.ts:62-64 | In every run active rows have no fiscal effect, and rows that are pending, approved, rejected or returned have one. |
| StoreLifecycle.RowsMoveForward | store/memory-store.ts:494-538 | Between any two points of a run each row keeps its place and everything it was saved with; references are only added, and the status moves along the lifecycle: decisions from pending only, voiding and supersession from current rows only. |
| RuleLinks.AssertValidRuleLinks | core/types.ts:862-884 | The loop over the links returns the list without repetitions, or the first reason to refuse it. |
| RuleLinks.PinnedIff | core/types.ts:862-884 | A list of links is accepted exactly when every link is well formed and no reference is pinned in two ways. |
| RuleLinks.PinnedLinks | core/types.ts:862-884 | What is left of an accepted list are the same links, one for each reference. |
| Store.InMemoryMemoryStore.CheckTargets | store/memory-store.ts:421-455 | The loop finds the first link whose target is missing, is no rule, has another topic, date or tenant. |
| RuleLinks.DeriveRuleRefs | core/types.ts:891-913 | The loops merge the references of the links into the given ones. |
| StoreRows.SavedRuleRefsIff | store/memory-store.ts:417-420 | The rule references of a save repeat none exactly when it names none, has links, or repeats none itself; and they contain those of its links exactly when it names some at all. |
| StoreRows.RefsOfRows | store/memory-store.ts:1058-1112 | In every reachable store the evidence references of a row repeat none and are not blank, and its rule references repeat none exactly when those it was saved with repeat none. |
| StoreRows.RepeatedRuleRefsAreStored | core/types.ts:891-896 | A save without links stores repeated rule references as they came. |
| Store.InMemoryMemoryStore.ApplyStatusTransition | store/memory-store.ts:672-722 | A move rewrites one row, appends one log entry and its receipt; an unknown id changes nothing. |
| Store.InMemoryMemoryStore.ApplyGateTransition | lifecycle/transitions.ts:265-284 | The gate lets exactly the guarded moves through, and other targets unchecked. |
| StoreLifecycle.GateMovesIff | lifecycle/transitions.ts:67-156 | Through the gate a row is approved or rejected exactly by a human while pending, and voided exactly by a human or a system while active, pending or approved; the log entry says who moved it, from where and when. |
| Store.InMemoryMemoryStore.AddLink | store/memory-store.ts:1058-1112 | A new reference is appended once and the cached envelope recomputed; only evidence links emit a receipt. |
| StoreLifecycle.LinkAddsIff | store/memory-store.ts:1058-1112 | A link is added, at the end, exactly for a reference that is not blank and not there yet; an evidence link is signed with its actor, instant and reference, a rule link is not signed. |
| Store.InMemoryMemoryStore.ApproveMemory | store/memory-store.ts:1121-1350 | An authenticated approval: every check in the source's order, replay and conflict by ledger, one event, one log entry, one receipt, and no change on any refusal. |
| StoreDecisions.ApprovesIff | store/memory-store.ts:1121-1272 | An approval is recorded exactly when nothing is blank, the request is unused, and a stored row of that id is pending, in the principal's tenant and companies, hashed as reviewed, allowed by the policy, and changes its envelope; otherwise nothing changes. |
| StoreDecisions.ApprovalsWereAllowed | store/memory-store.ts:1240-1298 | Every approval event of every run was written by one approval of the run, which the policy of that step allowed for the row as it stood; it carries that policy's version, the principal, the reason and both envelopes of that row. |
| StoreDecisions.ApprovalRefusals | store/memory-store.ts:1121-1272 | The code of a refused approval names a guard that fails: blank field, unknown row, taken request, scope, tenant, status, reviewed hash, or the policy with its own reason code. |
| StoreLifecycle.ApprovalsWereGiven | store/memory-store.ts:1240-1298 | In every run an approval event is about a stored row of its tenant and company that was pending, whose approver a policy allowed for a stated reason, and which is still approved, voided or superseded. |
| Store.InMemoryMemoryStore.DecidePendingMemory | store/memory-store.ts:1647-1875 | Reject and return: the same, with separation of duties and the reason policy. |
| StoreDecisions.TurnsDownIff | store/memory-store.ts:1647-1790 | A rejection or return is recorded exactly when no id is blank, the request is unused, and a stored row of that id is pending, in the principal's reach, hashed as reviewed, not of the principal's own making, changes its envelope, and has a reason where one is required; otherwise nothing changes. |
| StoreDecisions.TurnDownsWereAllowed | store/memory-store.ts:1763-1824 | Every rejection and return event of every run was written by one such command of the run under those guards, for the row as it stood. |
| StoreDecisions.ReviewRefusals | store/memory-store.ts:1647-1790 | The code of a refused rejection or return names a guard that fails, separation of duties and the reason policy included. |
| StoreLifecycle.NobodyTurnsDownTheirOwn | store/memory-store.ts:1763-1780 | In every run each rejection or return event is about a stored row whose author is unknown or someone else, with a reason whenever it is a return or the row is material, critical, a closing, a declaration or a SUNAT filing; the row still has the event's status. |
| StoreLifecycle.DecisionsStand | store/memory-store.ts:1227-1319 | Decisions stand: rejected and returned rows stay so for ever, approved ones are at most voided or superseded later. |
| Store.InMemoryMemoryStore.OpenJudgmentForTuple | store/memory-store.ts:2805-2825 | The first open proposal of a tuple, in insertion order. |
| Store.InMemoryMemoryStore.ProposeJudgment | store/memory-store.ts:1959-2207 | A proposal: scope, source and relation checks, replay by ledger, the open proposal it replaces routes to it, and no change on any refusal. |
| StoreVerdicts.ProposesIff | store/memory-store.ts:1959-2183 | A proposal takes effect exactly when it is complete, of one of the six relations, by an agent or a system, between two stored rows of one company, under an unused request, correcting nothing or a judgment it may correct, with no other open proposal of the tuple; otherwise nothing changes. |
| StoreVerdicts.JudgmentsRelateRows | store/memory-store.ts:1980-2030 | In every run every judgment relates two different stored rows of its tenant and company by a proposable relation, was proposed by an agent or a system, and has a fiscal period only where both rows share it. |
| Store.InMemoryMemoryStore.AdjudicateJudgment | store/memory-store.ts:2213-2670 | Confirm and reject: checks, verdict, superseded predecessor, relation, event and receipt as one step, and no change on any refusal. |
| StoreVerdicts.VerdictsIff | store/memory-store.ts:2213-2475 | A verdict takes effect exactly when no field is blank, the request is open to it, and a stored proposal of that id is open, hashed as reviewed, allowed by the policy, and, for a confirmation, has a predecessor that can give way or none; otherwise nothing changes. |
| StoreVerdicts.VerdictRecords | store/memory-store.ts:2333-2475 | What a verdict writes: the event of the decision with principal, policy version and reason, at most the event of the replaced predecessor, and a receipt over the envelopes of the two rows as they are stored. |
| StoreVerdicts.VerdictsWereAllowed | store/memory-store.ts:2300-2332 | Every confirmation and rejection event of every run was written by one verdict of the run that its policy allowed for the proposal as it stood. |
| StoreVerdicts.VerdictRefusals | store/memory-store.ts:2213-2360 | The code of a refused verdict names a guard that fails. |
| StoreJudgments.VerdictsAreSigned | store/memory-store.ts:2422-2445 | With a signer, in every run each judgment with an adjudicator has exactly one receipt and every other none; its action is relation_rejected exactly for a declined judgment and relation_confirmed otherwise, over the hash in the decision's event, with the resolution as reason and the judgment's own ends. |
| StoreJudgments.RunsTellJudgments | store/memory-store.ts:1959-2800 | In every run the events of a judgment tell its life: none while proposed, then one decision or withdrawal, then at most one supersession, with principal, reason, instants and statuses as the judgment has them, and the last event commits the judgment as it stands. |
| StoreRelations.RunsCauseRelations | store/memory-store.ts:635-670 | In every run a relation is recorded exactly for the supersession of a row or a confirmed judgment, in the name and at the instant of its cause, and no two relations agree. |
| StoreRelations.RunsRecordReplacements | store/memory-store.ts:2170-2183 | In every run a judgment relation is recorded exactly for each replaced judgment, to the one that stands for it. |
| Store.InMemoryMemoryStore.WithdrawJudgment | store/memory-store.ts:2677-2800 | A proposer withdraws an open proposal; anyone else changes nothing. |
| StoreVerdicts.WithdrawsIff | store/memory-store.ts:2677-2800 | A withdrawal takes effect exactly when an agent or a system with the proposer's identity asks for it, about an open proposal, under an open request; otherwise nothing changes. |
| Store.InMemoryMemoryStore.ListReviewQueue | store/memory-store.ts:1368-1406 | A page shows, row by row, the window at its offset of the one order of the pending rows of the scope in which each stands before the less risky, the later recorded and the later stored ones; its limit is the asked one between 1 and 200, and 50 without one. |
| ReviewQueue.PageInWords | store/memory-store.ts:1368-1406 | Each item of a page shows the fields of its row, its fresh envelope and the number of open proposals that touch it; no later row of the queue is of a heavier level, nor of the same level and recorded earlier. |
| StoreRuns.StepKeepsInv | store/memory-store.ts:391-2825 | Every operation with legal arguments keeps all invariants of rows, logs, ledgers, receipts and judgments, and moves judgments legally. |
| StoreRuns.RunKeepsInv | store/memory-store.ts:391-2825 | The invariants hold after every run from the empty store. |
| StoreTheorems.ChainsAreLinear | store/memory-store.ts:403-404 | After every run a chain numbers its revisions 1..n, only its last revision can be active, pending or approved, and exactly the superseded ones name a successor: the next revision. |
| RevisionChains.SaveKeepsRows | store/memory-store.ts:494-538 | Storing the next revision keeps every chain in order. |
| StoreTheorems.PlainRowsAreSeparate | store/memory-store.ts:2828-2838 | Rows of any scopes without NUL in topics and scopes never share a chain across topics or scopes; for accepted scopes StoreCollisions.SeparateIff is exact. |
| Records.ChainKeysCanCollide | core/types.ts:951-955 | An instance of colliding keys; ChainKeys.TwinIff says exactly which scopes have one. |
| Kernel.PlainRowsHaveOwnChains | store/memory-store.ts:2828-2838 | The same over the kernel's own keys. |
| ChainKeys.SharesChainIff | core/types.ts:951-955 | Two accepted scopes under two topics share a chain key exactly when both are institutional under one topic, or have one RUC and period and their topics and names run together. |
| ChainKeys.TwinIff | core/types.ts:1030-1048 | Under one topic an accepted company scope shares its key with another one exactly when its organization has a NUL after the first character or its company one before the last. |
| StoreCollisions.SeparateIff | store/memory-store.ts:2828-2838 | Stored rows in accepted scopes keep to their own chains exactly when no two of them run together in that way. |
| StoreCollisions.CollidingSavesFailTheScope | store/memory-store.ts:550-573 | After two saves whose keys collide across scopes the first row is superseded by the second, and the receipt of that supersession fails the scope check. |
| StoreCollisions.SplittableScopesAreTakenOver | store/memory-store.ts:550-573 | Every accepted company scope with such a NUL has another accepted scope whose save takes its chain over in this way. |
| StoreTheorems.CachedEnvelopesAreFresh | store/memory-store.ts:512-588 | The cached envelope hash of every row that was not superseded is the one its current fields give. |
| StoreTheorems.EveryReceiptPasses | core/verify.ts:321-626 | Every receipt of every run passes canonicalization, envelope integrity, signature and key validity against the payload it signed. |
| StoreTheorems.ReceiptScopeIff | core/verify.ts:639-683 | A receipt of a memory or judgment of any run passes the scope check exactly when it is no supersession, or the scopes of the superseded and the superseding row agree. |
| StoreTheorems.SeparateKeysPassTheScope | core/verify.ts:639-683 | Where rows of different scopes never share a chain, every such receipt passes the scope check. |
| StoreTheorems.EveryChainPasses | core/verify.ts:689-728 | After every run each subject's receipts pass the chain check at every position. |
| StoreTheorems.ReceiptsNamePredecessors | store/memory-store.ts:965-997 | Every receipt names the digest of the last one before it about the same subject, type and id; the first one of a subject names none. |
| StoreReceipts.RunsAreAttested | store/memory-store.ts:672-722 | With a signer, receipts and records match one for one and in order: recordings and rows, approval receipts and approval events, rejection and return receipts and their events, all moves but approvals and the log, evidence receipts and a row's evidence, supersession receipts and superseded rows; nothing else is signed about memories. |
| StoreReceipts.EventsAreLogged | store/memory-store.ts:1275-1298 | Every decision event has its entry in the log: a human's move of the pending row to the event's status, by its principal at its instant. |
| StoreTheorems.HeadCommitsHistory | store/memory-store.ts:977-997 | A chain that passes and ends in a subject's head digest is the history that the store wrote, or two receipts collide. |
| Verification.HeadDeterminesChain | core/verify.ts:689-728 | Two chains that pass and end in one digest are the same chain, or two receipts collide. |
| StoreTheorems.LogAgreesWithStatus | core/rules.ts:100-112 | At an instant past all entries of a row, replaying its log gives its status; a superseded row was current when it gave way. |
| StatusLog.StatusAsOf | core/rules.ts:100-112 | The loop returns the target of the last entry in effect, the initial status when there is none. |
| StatusLog.ReplayIsStatusAsOf | core/rules.ts:100-112 | Past all entries, the status as of an instant is the replay of the whole log. |
| StoreTheorems.EntriesStartWhereTheLogStood | store/memory-store.ts:681-697 | Each entry starts at the status that the log gave its row just before, and its move is one of the guarded ones. |
| StoreLifecycle.EntriesAreGated | lifecycle/transitions.ts:67-156 | Every log entry, in its own words: an approval, rejection or return is a human's move of a pending row with a fiscal effect, voiding is no agent's move of an active, pending or approved row, and there are no other entries. |
| StoreTheorems.ApprovedRowsWereApprovedByHumans | lifecycle/transitions.ts:117-127 | The last log entry of an approved row is a human's approval of a pending one. |
| StoreTheorems.GateKeepsLogIff | lifecycle/transitions.ts:265-284 | A gate move of any row keeps the log in order exactly when it is one of the guarded moves, which the three checked targets always are. |
| StoreTheorems.UncheckedTargetReopens | lifecycle/transitions.ts:275-278 | An agent can send any row back to review through the gate, whatever its status; the log no longer holds, and a superseded row breaks its chain. |
| StoreTheorems.OneDecisionPerRevision | store/memory-store.ts:1214-1298 | Over both ledgers, each revision gets at most one authenticated decision event. |
| StoreTheorems.OneEventPerRequest | store/memory-store.ts:1146-1181 | Each completed request of a tenant stands for exactly one event of its ledger. |
| StoreIdempotence.RunKeepsLedgers | store/memory-store.ts:1333-1349 | No operation ever drops or alters a reservation of the approval ledger or the review ledger. |
| StoreIdempotence.ApprovalReplays | store/memory-store.ts:1146-1181 | A successful approval repeated at any later point returns the stored result with only the replay flag changed, and changes nothing. |
| StoreIdempotence.ApprovalReuseConflicts | store/memory-store.ts:1146-1181 | The same request id with another command or principal always conflicts. |
| StoreIdempotence.ReviewReplays | store/memory-store.ts:1668-1705 | A repeated rejection or return changes nothing and returns the stored result under the status of the repeating operation: the stored one exactly when it is the same operation. |
| StoreIdempotence.ReviewReuseConflicts | store/memory-store.ts:1668-1705 | The same for another command or principal: always a conflict. |
| JudgmentModel.VerdictCommitsIff | store/memory-store.ts:2213-2475 | A verdict changes the store exactly when its guards hold: no blank field, the request unused or reserved for it without an event, and every check passed. |
| StoreJudgmentLedger.ReservationChangesIff | store/memory-store.ts:2240-2275 | A step changes a reservation of the judgment ledger exactly when it is a verdict or withdrawal, past its guards, under a reservation without an event with the same command hash and binding; hash and binding stay. |
| StoreJudgmentLedger.ReservationStays | store/memory-store.ts:1959-2800 | Along every run a reservation keeps its command hash and binding, and one with an event never changes. |
| StoreJudgmentLedger.DecisionsReplay | store/memory-store.ts:2240-2275 | A verdict or withdrawal repeated at any later point, even under the other verdict, is answered with its judgment as it is now and its stored event, and changes nothing. |
| StoreJudgmentLedger.ProposalsReplay | store/memory-store.ts:2045-2082 | A proposal repeated at any later point changes nothing and is answered with its own judgment as it is now, unless a decision took its reservation over. |
| StoreJudgmentLedger.OtherClaimsConflict | store/memory-store.ts:2032-2044 | A judgment operation under a reservation with another command hash or binding always conflicts and changes nothing. |
| StoreJudgmentLedger.ReusedRequestsConflict | store/memory-store.ts:2032-2044 | So it does for the request of any judgment operation that succeeded, at any later point. |
| StoreJudgmentLedger.ProposalReservationsAreSafe | store/memory-store.ts:2986-3035 | With NUL-free subject and judgment ids no verdict takes a proposal's reservation over, and a withdrawal only through a digest collision. |
| StoreRuns.StepContinuityIff | store/memory-store.ts:672-722 | A step keeps the envelope line of the receipts unbroken exactly when it is not a gate approval or a rule link that changes the envelope. |
| StoreRuns.CoveredRunsAreContinuous | internal/server/verify_service.go:721-738 | In every run of the other operations each receipt of a memory starts at the envelope the previous one committed, and the head commits its freshly computed envelope. |
| StoreTheorems.JudgmentsAreWellFormed | store/memory-store.ts:2805-2825 | After every run: at most one open proposal per tuple, and each replaced judgment routes to a later one that names it as predecessor. |
| StoreTheorems.JudgmentsMoveForward | lifecycle/transitions.ts:328-344 | Between any two points of a run a judgment keeps its subject, and its status is the same or one legal move further. |
| JudgmentChains.Current | store/memory-store.ts:1940-1950 | Following successors from any judgment ends, at one that was not replaced. |
| SupersessionWalk.MemorySupersessionLayer | internal/server/verify_service.go:606-633 | The walk over successors passes exactly when it is clean. |
| SupersessionWalk.RoutedWalkIsClean | store/memory-store.ts:662-670 | Where relations and rows agree, the walk from any revision of a chain within one scope ends and passes. |
| SupersessionWalk.UnroutedWalkFails | store/memory-store.ts:662-670 | A 'supersedes' relation from a row that is not superseded makes its walk fail. |
| StoreRouting.StepRoutingIff | store/memory-store.ts:2333-2421 | A step keeps relations and rows in agreement exactly when it is not a verdict, past guards a caller can check, that confirms a 'supersedes' judgment from a current row. |
| StoreRouting.RoutedRunsWalkClean | core/verify.ts:889-942 | In every run without such a step, the walk from any revision of a chain within one scope passes the supersession check. |
| StoreRouting.MisroutingFailsTheWalk | store/memory-store.ts:2333-2421 | After such a step there is a row whose walk fails. |
| StoreMisrouting.MisroutingIsReachable | store/memory-store.ts:2333-2421 | Two saves and a proposal lead to such a step: it is legal, and afterwards the walk from the first row fails. |
| Verification.VerifySupersessionChain | core/verify.ts:889-942 | The check passes exactly the walks in one scope, without a repeated row, where exactly the superseded rows have a successor and every row but the last is superseded. |
| Verification.WalkRoutingIsNotChecked | core/verify.ts:900-936 | A walk whose links point elsewhere passes. |
| Verification.AggregateLayers | core/verify.ts:1294-1325 | Failed when any layer failed, skipped when there is none or all were skipped, passed otherwise. |
| Verification.Finalize | core/verify.ts:1347-1361 | The outcome is passed exactly when no top-level layer failed. |
| ReviewQueue.QueueIsExactlyPending | store/memory-store.ts:1375-1377 | The queue of a scope holds exactly its pending rows, each once. |
| ReviewQueue.QueueOrder | store/memory-store.ts:1378-1390 | The queue shows the pending rows at their places: each riskier, or as risky and recorded earlier, or stored earlier than those after it. |
| ReviewQueue.QueuePlacesAreFixed | store/memory-store.ts:1378-1390 | There is only one such order. |
| ReviewQueue.PagesPartitionTheQueue | store/memory-store.ts:1368-1406 | Pages of any legal size, one after the other, show each row of the queue exactly once, in order. |
| ReviewQueue.LeavingTheQueue | store/memory-store.ts:1375-1390 | A row that stops being pending leaves its queue, and every other row keeps its place. |
| ReviewQueue.ApprovalTakesOneOff | store/memory-store.ts:1227-1319 | A new approval takes exactly the approved row off its queue and touches no other queue. |
| ExportOrdinals.CompleteIff | internal/core/evidence_export.go:285-303 | n ordinals hit every value below n exactly when they are distinct and in range. |
| ExportOrdinals.ValidChainOrdinals | internal/core/evidence_export.go:285-303 | The loop accepts exactly the permutations of 0..n-1. |
| ExportOrdinals.NumberingIsUnique | internal/core/evidence_export.go:305-358 | Links leave at most one numbering of a group as a chain. |
| ExportOrdinals.NumberingIsComplete | internal/core/evidence_export.go:305-358 | The positions of a chain are a permutation of 0..n-1. |
| ExportOrdinals.DeriveReceiptChainOrdinals | internal/core/evidence_export.go:305-358 | The reconstruction returns the positions of the one chain that the links form, and nothing exactly when they form none. |
| ExportArrangement.OrdinalsArePlaces | internal/core/evidence_export.go:305-358 | Ordinals are derived exactly when the receipts can be laid out as one chain, the first linked to nothing in the group and each other one to the receipt before it; each ordinal is the place in that layout. |
| ExportOrdinals.StuckWalkIsNoChain | internal/core/evidence_export.go:338-358 | A walk that stops before the end proves that the links form no chain. |
| ExportBundle.EstablishCanonicalReceiptOrdinals | internal/core/evidence_export.go:380-405 | In place, group by group: complete ordinals stay, a chain gets its positions, anything else gets zeros. |
| ExportOrder.OrdinalsAreSettled | internal/core/evidence_export.go:376-405 | Complete ordinals of a subject stay, incomplete ones become the places of the chain that the links form, and without such a chain all are zero. |
| ExportReceipts.EstablishingAgrees | internal/core/evidence_export.go:376-405 | The ordinals that rows get do not depend on their order. |
| ExportReceipts.EstablishingIsIdempotent | internal/core/evidence_export.go:376-405 | A second pass changes no ordinal. |
| ExportReceipts.UnambiguousIsTieFree | internal/core/evidence_export.go:503-519 | When each subject's ordinals are complete or its links form a chain, no two receipts share a sort key. |
| ExportReceipts.CanonicalReceiptsAreOrderFree | internal/core/evidence_export.go:493-519 | Without ties every order of the same receipts canonicalizes to one array. |
| ExportReceipts.CanonicalReceiptsAreStable | internal/core/evidence_export.go:493-519 | Canonicalizing canonical receipts again gives them back. |
| ExportReceipts.CanonicalIsChainOrder | internal/core/evidence_export.go:493-519 | A subject whose receipts form one chain issued in that order stands in chain order in the canonical array. |
| ExportBundle.EvidenceExportBundle.Canonicalize | internal/core/evidence_export.go:434-530 | Every array is sorted in place by its key, the receipts after their ordinals were fixed. |
| ExportOrder.CanonicalOrder | internal/core/evidence_export.go:434-519 | The order of each array, column by column: for example policies by jurisdiction, legislation, category, version and id, and receipts by subject, instant, ordinal and digest. |
| Sorting.SortBy | internal/core/evidence_export.go:434-519 | A sort delivers a permutation in key order, and promises nothing about ties. |
| Sorting.SortIsDeterminedIff | internal/core/evidence_export.go:434-519 | The result of a sort is a function of the rows, whatever their order, exactly when there are no ties. |
| ExportRows.CanonicalizationIsOrderFree | internal/core/evidence_export.go:407-433 | Without ties, the same rows in any order canonicalize to the same bundle. |
| ExportRows.CanonicalizationIsIdempotent | internal/core/evidence_export.go:434-530 | Without ties, canonicalizing twice changes nothing. |
| ExportRows.CanonicalizationComposes | internal/core/evidence_export.go:434-530 | With ties, canonicalizing twice delivers nothing that once could not. |
| ExportRows.LatestIsOrderFree | internal/core/evidence_export.go:552-595 | The as-of instant is one instant, and does not depend on the order of rows. |
| ExportVerify.GeneratedAt | internal/core/evidence_export.go:552-595 | The running maximum is the latest timestamp of any row, "" when there is none. |
| ExportOrder.StampsAre | internal/core/evidence_export.go:552-595 | The instants that count for the as-of instant are exactly the timestamps of the ten kinds of rows. |
| ExportVerify.ValidateScopeCoverage | internal/core/evidence_export.go:774-883 | Accepted exactly when the scope is a valid exact one and every row, receipt and reference lies in it. |
| ExportRows.ScopeSurvives | internal/core/evidence_export.go:774-883 | Canonicalization neither hides nor creates a row out of scope. |
| ExportVerify.ComputeContentHash | internal/core/evidence_export.go:679-700 | The content hash is the digest of the canonical rows; the arrays are left canonical. |
| ExportVerify.AssertValidBundle | internal/core/evidence_export.go:935-998 | A bundle is accepted exactly when version, criteria, scope, counts, objects, keys, instants and both hashes are in order. |
| ExportVerify.SoundManifestsAreBuilt | internal/core/evidence_export.go:719-734 | A bundle is structurally sound exactly when its manifest is the one built from its own scope, criteria, instant and rows, and scope, objects and keys are in order. |
| ExportVerify.BundleHashesBind | internal/core/evidence_export.go:702-711 | Two sound bundles with one bundle hash have one manifest and content digest, or their manifest cores collide. |
| ExportAudit.ExportByteStateLayer | internal/core/evidence_export_verify.go:360-422 | The layer of an object passes exactly when its byte state agrees with its purge executions and their receipts. |
| ExportAudit.AggregateByteState | internal/core/evidence_export_verify.go:424-439 | The byte-state column fails when any object's layer failed. |
| ExportAudit.SkipsNeverHide | internal/core/evidence_export_verify.go:293-357 | Whatever skips a layer of a receipt fails another: no layer failed exactly when all six passed. |
| ExportAudit.VerifyEvidenceExportBundle | internal/core/evidence_export_verify.go:165-291 | The report passes exactly when the canonical bundle is clean: sound structure, consistent byte states, and all six layers passed for every receipt (spelled out in ExportMeaning.CleanIff). |
| ExportMeaning.CleanIff | internal/core/evidence_export_verify.go:165-291 | A bundle is clean exactly when, in the fields of its rows, its structure holds, every byte state is shown by executions and receipts, and every receipt is proven. |
| ExportMeaning.SigningKeyLayerIff | internal/core/evidence_export_verify.go:329-357 | The signing-key layer passes exactly when the key is exported, is Ed25519, has bytes of that key id, was created by the instant of issue, and, if it was revoked, was revoked after it. |
| ExportMeaning.KeysCoverReceipts | core/verify.ts:557-626 | In a clean bundle each receipt's exported key was created by the instant of issue, and if it was revoked, the revocation parses and is later. |
| ExportMeaning.RevokedKeysNeverPass | core/verify.ts:600-620 | A bundle with a receipt issued at or after the revocation of its key, or before its creation, never passes. |
| ExportMeaning.ReceiptPassesIff | internal/core/evidence_export_verify.go:293-357 | The six layers of a receipt pass exactly when payload and digests are recomputed, envelope and payload agree in all ten shared fields, an exported key that could sign then verifies the signature, the receipt is in the scope of its object, and it links to the receipt before it of its subject. |
| ExportMeaning.ByteStateIff | internal/core/evidence_export_verify.go:360-422 | A byte state is consistent exactly when the exported executions and receipts show it: stored without executions, purged by the first completed one and its exported purge receipt, intended with an open one and none completed. |
| ExportMeaning.StructureIff | internal/core/evidence_export.go:774-998 | The structure, flattened to versions, digests, counts and the scope of every row, direct or through an exported object or request. |
| ExportChains.CleanChainsPass | internal/core/evidence_export_verify.go:206-262 | In a clean bundle each subject's receipts form one hash chain from an empty predecessor. |
| ExportChains.HeadsFixTheChain | internal/core/evidence_export_verify.go:206-262 | Two clean bundles whose chains of a subject end in one digest hold the same chain, or two receipts collide. |
| ExportChains.CleanReceiptsAreProven | internal/core/evidence_export_verify.go:293-357 | In a clean bundle every digest is the computed one, every signature verifies under an exported key valid at that time, and every receipt is in the scope of its object. |
| CanonicalSets.CanonicalIffSameElements | core/receipt.ts:75-80 | Two role lists have one canonical form exactly when they hold the same non-empty roles. |
| Json.ObjectsAreReadable | core/receipt.ts:96-131 | Objects printed alike are the same, keys and order included. |
| Receipts.PayloadBytesIff | core/receipt.ts:75-131 | Payload bytes are equal exactly when all string fields agree, the non-empty roles are the same, and, in v0.9.0 only, the three extra fields agree. |
| Receipts.CompleteBytesAreInjective | core/receipt.ts:171-193 | The complete receipt bytes determine the receipt. |
| Receipts.SignedBytesIff | core/receipt.ts:134-169 | The signed bytes determine the receipt up to its signature, and nothing else. |
| Envelope.RefOrderDoesNotShow | core/types.ts:1178-1203 | Reordering and repeating references does not change the envelope preimage. |
| Envelope.RefListsRunTogether | core/types.ts:1178-1203 | An instance of reference lists that run together; EnvelopeRefs.RefsAreAmbiguousIff says exactly which do. |
| EnvelopeRefs.RefsAreAmbiguousIff | core/types.ts:1178-1203 | NUL-free reference lists with another canonical form give the same preimage exactly when both canonical lists hold something, three references together, and the last piece of evidence sorts before the first rule. |
| EnvelopeRefs.PreimagesAgreeIff | core/types.ts:1183-1203 | Views without NUL have one preimage exactly when identity digests, all scalar fields and the joined reference segments agree. |
| Envelope.StatusShows | core/types.ts:1183-1203 | Two statuses never give the same preimage, whatever the other fields hold. |
| Envelope.NewRefShows | core/types.ts:1178-1203 | A new non-empty reference on either list always changes the preimage. |
| Kernel.StatusChangeShows | store/memory-store.ts:2912-2946 | A status change changes the envelope hash, or two preimages collide. |
| Kernel.GateApprovalsBreak | store/memory-store.ts:672-722 | A gate move breaks the envelope line exactly when it approves and that row's two preimages do not collide. |
| Kernel.RuleLinksBreak | store/memory-store.ts:1058-1112 | A rule link breaks the envelope line exactly when it adds a reference and that row's two preimages do not collide. |
| Kernel.CommandsAreBound | store/memory-store.ts:2948-2955 | Equal command hashes mean equal memory, reviewed hash and reason, or a collision. |
| Kernel.LedgerKeysAreBound | store/memory-store.ts:1146-1149 | A ledger key names one tenant and one request, when tenant ids carry no NUL. |
| Kernel.ReceiptDigestsAreBound | core/receipt.ts:209-215 | Receipts with one digest are one receipt, or their bytes collide. |
| Kernel.PayloadDigestsAreBound | core/receipt.ts:200-207 | Payload hashes agree exactly up to what canonicalization drops, or on a collision. |
| Framing.FrameIsReadable | internal/core/fiscal_act_evidence.go:68-83 | A length-prefixed frame ends where it ends, whatever it holds and whatever follows. |
| Framing.FramesAreReadable | internal/core/fiscal_act_evidence.go:68-83 | Equal concatenated frames, equally many, frame equal parts. |
| ActEvidence.ActEvidenceBytes | internal/core/fiscal_act_evidence.go:68-83 | The loop builds the domain tag and the four frames. |
| ActEvidence.ActPreimageIsInjective | internal/core/fiscal_act_evidence.go:68-83 | The preimage determines both hashes and both acknowledgement states. |
| ActEvidence.LinksContribution | internal/core/fiscal_act_evidence.go:89-104 | The loop builds the contribution of a list of links; nothing for the empty list. |
| ActEvidence.ContributionIsInjective | internal/core/fiscal_act_evidence.go:89-104 | For hashes without colon and NUL, equal contributions mean equal lists, so only the empty list contributes nothing. |
| ActEvidence.HexadecimalIsPlain | internal/core/fiscal_act_evidence.go:89-104 | Hexadecimal hashes carry no separator. |
| ActEvidence.HexadecimalContributionsAreInjective | internal/core/fiscal_act_evidence.go:89-104 | For hexadecimal hashes contributions agree exactly on equal lists. |
| ActEvidence.ColonsRunTogether | internal/core/fiscal_act_evidence.go:89-104 | Hashes that are not hexadecimal would let two different links contribute the same bytes. |
| FiscalScope.CanonicalFiscalScopeBytes | core/fiscal-scope.ts:167-177 | The loop builds the tag and one entry per field, in key order. |
| FiscalScope.CanonicalBytesAreInjective | core/fiscal-scope.ts:167-177 | Equal canonical bytes mean equal bindings, whatever the fields hold. |
| FiscalScopeJson.SkipSpace | core/fiscal-scope.ts:226-229 | The first position that is not white space. |
| FiscalScopeJson.ReadLiteral | core/fiscal-scope.ts:202-224 | A literal ends at its first unescaped quote and is handed to the decoder. |
| FiscalScopeJson.ReadMembers | core/fiscal-scope.ts:129-165 | The loop over the keys reads exactly one member each, in order. |
| FiscalScopeJson.ParseFiscalScopeV1JSON | core/fiscal-scope.ts:129-165 | The parser is the scan of the canonical keys followed by validation. |
| FiscalScopeJson.ScansExactlyDocuments | core/fiscal-scope.ts:129-165 | A text is scanned exactly when all of it is one object whose members are the keys in order, with white space between tokens. |
| FiscalScopeJson.AcceptsExactlyDocuments | core/fiscal-scope.ts:81-165 | A text is accepted as a binding exactly when the binding is valid and the text is such a document saying its version and fields. |
| FiscalScope.ValidIff | core/fiscal-scope.ts:52-127 | A valid binding: ten texts that are not blank and hold no NUL, a valid RUC, six digits with a month from 1 to 12, 64 lower-case hexadecimal digits, and an operation under exactly the authority it needs. |
| FiscalScopeJson.QuoteIsLiteral | core/fiscal-scope.ts:202-224 | A quoted string is one literal to the scanner, whatever it holds. |
| FiscalScopeJson.PrintedBindingsParseBack | core/fiscal-scope.ts:129-165 | A valid binding printed in key order with any white space between tokens parses back to itself. |
| PeriodComparison.RefSetsEqual | core/types.ts:2526-2538 | The counting loops decide multiset equality. |
| PeriodComparison.SetEqualityIff | core/types.ts:2524-2538 | For lists without repetitions that is set equality. |
| StoreRows.EvidenceComparesAsSets | core/types.ts:2524-2538 | For the evidence references of stored rows multiset equality is set equality. |
| PeriodComparison.RepetitionIsNotIgnored | core/types.ts:2524-2538 | For lists with repetitions it is not. |
| PeriodComparison.ChainsDiffer | core/types.ts:2509-2521 | Two rows differ by content apart from the period, status, successor, or references as multisets. |
| PeriodComparison.Deltas | core/types.ts:2427-2454 | One entry per value present, the difference of its counts, and the entries sum to the total delta. |
| PeriodComparison.BuildIndex | core/types.ts:2416-2424 | The last row of each topic, in order of first appearance. |
| PeriodComparison.ComputePeriodComparison | core/types.ts:2641-2711 | The loops compute the comparison: counts, deltas, the four chain lists, status changes and pending delta. |
| PeriodWords.ChangedInWords | core/types.ts:2674-2690 | A change is listed exactly for the last rows of one topic of both periods when content without the period, status, successor or references differ, with the ids of both rows and kind and title of the later one. |
| PeriodWords.NewAndRemovedInWords | core/types.ts:2674-2706 | A chain is listed as new exactly when only the later period has it and as removed exactly when only the earlier one has it, with the fields of its last row. |
| PeriodWords.MovedInWords | core/types.ts:2674-2690 | A status change is listed exactly for the last rows of one topic of both periods when their statuses differ. |
| PeriodWords.DeltasInWords | core/types.ts:2427-2454 | The entry of a kind or a status is the number of its rows in the later period minus that in the earlier one. |
| PeriodWords.PendingInWords | core/types.ts:2545-2574 | An id is listed as added exactly when it is the last item of a topic pending only in the later period, and as resolved exactly when only in the earlier one. |
| PeriodWords.ListsAreInOrder | core/types.ts:2674-2711 | The lists stand by topic and id, and the pending ids in order. |
| PeriodComparison.ChainsAreConserved | core/types.ts:2674-2706 | New, changed and unchanged add up to the topics of the later period; removed, changed and unchanged to those of the earlier one. |
| PeriodComparison.TotalsAreConservedIff | core/types.ts:2674-2706 | They add up to the periods' totals exactly when each topic has one row. |
| PeriodComparison.ChangedIff | core/types.ts:2674-2690 | A chain is listed as changed exactly when it is in both periods and its rows differ. |
| PeriodComparison.PendingIsConserved | core/types.ts:2545-2574 | Added minus resolved is the difference of the pending topics, and the pending delta when each topic is pending once. |
| PeriodComparison.StatusChangesAreChanges | core/types.ts:2509-2521 | Every status change belongs to a changed chain with the same ids. |
| PeriodComparison.SwappingPeriods | core/types.ts:2641-2711 | Swapping the periods swaps totals, new and removed, added and resolved, keeps changed topics and the unchanged count, mirrors every status change, and negates every delta. |
| PeriodComparison.ComparisonIgnoresOrder | core/types.ts:2634-2711 | With one row and one pending item per topic the whole comparison does not depend on the order of its inputs. |
| StableSort.StableSortIsUnique | search/scope-first.ts:93-101 | There is exactly one order that is sorted by key and keeps rows of equal keys in their order. |
| Search.LatestPerChain | search/scope-first.ts:144-154 | The map loop keeps the first of the highest revisions of each chain. |
| Search.ScoreMemory | search/scope-first.ts:170-186 | The number of query tokens that occur in the row. |
| Search.ScopeFirstSearch | search/scope-first.ts:62-104 | The loops compute the ranked matches, cut at the limit. |
| SearchWords.HitInWords | search/scope-first.ts:62-186 | For a tokenizer that splits at spaces: a hit is exactly a row in scope and past the filters that is the first highest of its chain among those and mentions the words of the query, all or any as asked, in its title or one of its four content fields. |
| SearchWords.ScoreCountsWords | search/scope-first.ts:170-186 | The score is the number of different words of the query that occur in the title or in one of the content fields. |
| SearchWords.TitleWordsAreFound | search/scope-first.ts:170-186 | A word that occurs in the title alone finds the row. |
| SearchWords.HitsAreInOrder | search/scope-first.ts:93-104 | Hits stand by higher score, newer row and id; the answer is a prefix of all hits, and a negative limit drops as many from the end. |
| Search.ForeignRowsDoNotShow | search/scope-first.ts:132-142 | A company query without institutional intent gives the same answer on any two stores that agree on its exact scope. |
| Search.HitIff | search/scope-first.ts:62-154 | A hit is exactly a matching row in scope that passes the filters and is the first highest revision of its chain among those (in words in SearchWords.HitInWords). |
| Search.NothingOmittedOutranks | search/scope-first.ts:93-104 | The limit is filled when it can be, and no omitted match outranks a returned one. |
| Search.OneHitPerTopic | search/scope-first.ts:144-154 | A company query returns at most one row per topic. |
| Search.RowIsHitIff | search/scope-first.ts:62-154 | In every reachable store a row is a hit exactly when it is in scope, passes and matches, and every later revision of its chain in scope fails the filters. |
| Search.SupersededIsHitIff | search/scope-first.ts:106-154 | Without NUL in topics and scopes, a superseded row in scope is a hit exactly when it passes and matches and every later revision of its topic and scope fails the filters; without filters it never is. |
| Search.KindFilterReturnsSuperseded | search/scope-first.ts:106-154 | It does happen: after two saves of one topic under two kinds, the query for the first kind finds the superseded revision exactly when its words match. |
| Reconstructibility.ClassifyReconstructibility | core/reconstructibility.ts:150-173 | The first failure in the frozen order, none when there is none. |
| Reconstructibility.AggregateReconstructibility | core/reconstructibility.ts:264-296 | The loop counts eligible heads, reconstructible ones, and lists the ids of the others under their reasons, sorted. |
| Reconstructibility.AggregateInWords | core/reconstructibility.ts:67-173 | With distinct ids, an id is listed under a reason exactly when its head is approved, material or critical, of the scope and of a counting effect, and the first failing group of layers of its report is that reason; the denominator counts those heads. |
| Reconstructibility.DecisionsAreConserved | core/reconstructibility.ts:264-296 | Numerator and lengths of the reason lists add up to the denominator, and not_approved never occurs. |
| Reconstructibility.ListedIff | core/reconstructibility.ts:264-296 | With distinct ids an eligible head is listed under a reason exactly when its own report gives that reason; a missing report counts as receipt_failed. |
| Reconstructibility.OrderDoesNotCount | core/reconstructibility.ts:256-263 | With distinct ids the aggregate does not depend on the order of the heads. |
| Reconstructibility.ReconstructibleIff | core/reconstructibility.ts:98-173 | An approved decision counts as reconstructible exactly when no relevant layer of its report failed; skipped and absent layers do not count against it. |
| Reconstructibility.PercentageIsFloor | core/reconstructibility.ts:192-207 | A percentage that is shown is the floor of 100n/d, and none is shown exactly for an empty denominator or an unsafe quotient. |
| Reconstructibility.HundredMeansAll | core/reconstructibility.ts:192-207 | For a part of a count, 100 means all of it and 0 means less than one in a hundred. |
| RuleVersions.RuleInForceAt | core/rules.ts:30-55 | The loop keeps exactly the revisions in force at the instant. |
| RuleVersions.ResolveRuleVersionFromChain | core/rules.ts:63-94 | The method refuses an empty pin or time, no revision, more than one, or the wrong one in force, in that order, and returns the pinned one otherwise. |
| RuleVersions.ResolvesIff | core/rules.ts:63-94 | A pin resolves exactly when one revision, the pinned one, is in force. |
| RuleVersions.ConsecutiveWindowsResolve | core/rules.ts:30-94 | With consecutive windows every instant from the first start on resolves exactly one pin. |
| RuleVersions.OpenRevisionsOverlap | core/rules.ts:36-42 | Once two revisions without windows have taken effect, no pin resolves. |
| TopicFold.FoldTopicKey | core/topic-fold.ts:25-40 | The loop returns the words of the lower-cased key with one space between them. |
| TopicFold.FoldsAgreeIff | core/topic-fold.ts:25-40 | Two keys fold alike exactly when they hold the same words in the same order. |
| TopicFold.CleanIffFixed | core/topic-fold.ts:25-52 | The texts without leading, trailing or double spaces and without other characters are exactly the ones that folding leaves alone; every fold is one. |
| TopicFold.FoldIsIdempotent | core/topic-fold.ts:25-40 | Folding a folded key changes nothing, for a lower-casing that leaves alone the characters it produces. |

## Left out

- Pinning one rule link after the write (`addRuleLinkVersion`) and the provenance log of rule links; evidence objects, retention, holds and purge in the store.
- Store.InMemoryMemoryStore.Save: the validators of scope, content, source, validity and of the finished row are two answers that come with the input, one before and one after the rule links are checked, because they read no stored state.
- `reviewDetail`, the generic `relate` and the read accessors that only copy lists.
- Interleaving of asynchronous operations: each operation is one step. Cloning on read: rows are values.
- Row objects shared by the store's lists and maps: the class holds rows by position in one list instead.
- A signer that is revoked while an operation runs; receipts are signed or there is no signer.
- SHA-256, Ed25519, base64, RFC 3339 parsing and RUC check digits: parameters.
- Fields that no modelled operation reads: `validity`, monetary materiality, object byte contents. Search takes staleness as a parameter, and rule resolution has its own row type with a window.
- Absent optional strings are the empty string, so an absent period and an empty one are one period.
- The order of strings is by code points; JavaScript compares UTF-16 units, which differs above the basic plane.
- Error messages and detail strings of the layers; the Spanish narrative, period labels and close states of the period comparison.
- Default values of the search input (limit 20, match any): part of the query.
- Principal provenance, judgment hash, evidence, object and rule availability layers of the online verifier.
- The strict payload decoder and field validators of the export: parameters of `Formats` and `Checkers`.
- JSON text of the bundle and manifest: their hashes are taken of the values.
- Float arithmetic of the percentage above the safe integers.
- Tokenizing, collation and lower-casing of text: parameters.
- Sorting.SortBy: stands for the library sort of the export, which promises no order of ties; the array is sorted by insertion, with the same promise.
- ActEvidence.ContributionIsInjective: assumes hashes without colon and NUL, because the contribution is ambiguous with them; the hashes of stored links are hexadecimal (ActEvidence.HexadecimalContributionsAreInjective).
- StoreMisrouting.MisroutingIsReachable: the adjudication policy and the reviewed hash are parameters of the store, so that the run's policy allows the decision and its hash is the stored one is asked of the caller.
- TopicFold.FoldIsIdempotent: assumes that lower-casing leaves alone texts of characters it produces, because an idempotent lower-casing of whole texts alone does not fix what it does to the folded text.
- Search.SupersededIsHitIff: assumes topics and scopes without NUL, because chain keys can collide with it; Search.RowIsHitIff assumes nothing of the kind.
- Online command-line tools, servers, authentication and authorization policies: the approval and judgment policies are parameters.
- SearchWords.HitInWords: assumes a tokenizer that splits at spaces, as the source's pattern does; so do the other statements of that module that count words.
- StoreReceipts.RunsAreAttested: assumes a signer, because without one nothing is signed.
- Fields of decision events that are the same for every event of a kind: the previous status, the reason code of the authorization, and the fiscal period, which is the row's.
