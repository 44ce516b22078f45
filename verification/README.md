# NightLedger, modelled and verified

NightLedger is an append-only ledger of agent events in which risky actions wait for a human approval, and
a purchase executes only against a signed, single-use token. This project models its deterministic core in
Dafny and proves what that core keeps over every run. `dafny verify dfyconfig.toml` checks all of it.

The model has four connected parts.

**The ledger and its protocol.** `Events` holds the event schema, `EventLog` the specification of the store as
one log, and `EventStore` the in-memory store with its five structures, as a class. `RunStatus` projects a run's
status, `Approvals` registers, resolves and queries approvals on the store, `RuntimeReceipts` writes the request
handlers' receipts. Each method is proved equal to a function of the log; `Resolution`, `Ledger`, `Decisions` and
`RunHealth` prove what these functions keep, over one step and over all runs, and `Verdicts` what a registration and a
resolution make of a decision. `Gateway` has the request handlers, `Handling` says what they answer and write, and
`Enforcement` has the end-to-end theorem for authorizing, registering, resolving, minting, executing and the passing
of time; `Recorded` counts receipts against executions, and `Spending` asks how much one approval buys. `PendingList`
lists what is pending over all runs. `ReplayStore` interleaves the steps of concurrent executions. `BusinessRules` is
the gate on raw ingest.

**The hash chain.** `AuditExport` verifies a run's chain and exports a decision's events. `SqliteStore` is the
second backend, compared with the first event by event; `IsoTime` shows when the order of timestamp text is the
order of time.

**The rule language.** `RuleLanguage` has the syntax trees, the validator, the evaluator, and the extractor of
required inputs; `RuleMeaning` what each construct means; `Policy` the decision over a rule set and the catalog.

**Codecs.** `Base64Url` is unpadded base64url as in section 5 of RFC 4648, `ExecutionTokens` mints and verifies,
and `Framing` reads, writes and serves Content-Length frames.

## What stands in for foreign code

Time is an unbounded integer of microseconds since 1970, and a handler reads the clock once. SHA-256, HMAC, the
JSON library, UTF-8 validity and Python's comparison operators are function values that a theorem takes as
parameters, with the hypotheses it needs of them stated beside it: `NonEmpty` and `CollisionFree` for the event
hash, `Sound` for token signing and JSON, `Faithful` for message JSON. Random ids are parameters; that token ids
are fresh (`FreshId`) and that signatures cannot be forged (`Unforgeable`) are conditions on a run.

## Where the code promises less than one might think

Each of these is a theorem below, with the exact condition.

- Audit verification walks events in time order while the chain follows append order. An honest run fails
  verification exactly when one of its events arrived late (`AuditExport.HonestRunVerifies`,
  `AuditExport.TwoAppendsBreakChain`). The system's own steps never cause that (`Ledger.AuditNeverBreaks`).
- The ingest gate goes by an event's declared type, the projection by its signals. An accepted event can break its
  run; `BusinessRules.Gap` is exactly when (`BusinessRules.AcceptedEvent`).
- A second registration into a paused run is accepted and makes every request of the run unresolvable for ever
  (`RunHealth.SecondRegistrationDeadlocks`); `RunHealth.RegisterHealth` is exactly when a registration is harmless.
- A run is left unprojectable by an approval in a blank name, which the request schema excludes but the service does
  not (`Resolution.ResolveStep`), and by any receipt written into a run that has ended (`RunHealth.ReceiptHealth`).
- The test for an earlier resolution goes by a prefix of the id, and can refuse a request that nobody has resolved:
  `Resolution.ScanOfPaused` is exactly when, `RunHealth.PrefixCollision` how it comes about.
- Interleaved executions can use a token twice, if one of them is overtaken between verifying and consuming by a
  deletion whose reading of the clock is past the token's expiry. `ReplayStore.ReuseExactly` is exactly when;
  `ReplayStore.SingleUse` is a condition on the clock alone that excludes it.
- One approval buys any number of purchases, of any kind: minting for an approved decision is not limited
  (`Spending.ApprovalBuysAny`).
- The catalog goes by the spelling of attributes, so it also advertises what is no input
  (`RuleMeaning.AdvertisedExactly`, `RuleMeaning.AdvertisesForeignContext`).
- The pending list of all runs fails as soon as one run does not project (`PendingList.ListPendingApprovals`), and one
  receipt in an ended run sees to that for good (`PendingList.ReceiptDisablesList`).
- The pending list sorts on text that is not always in the order of time; `IsoTime.ZuluOrder` is exactly when.

## Model

| member | source | states |
|---|---|---|
| `EventStore.InMemoryEventStore.Append` | src/nightledger_api/services/event_store.py:68-110 | refuses exactly the (run, id) pairs already logged and then leaves every structure as it was; otherwise appends one record to the log, with sequence, late flag, previous hash and hash, and all structures agree with the log again |
| `EventStore.InMemoryEventStore.ListByRunId` | src/nightledger_api/services/event_store.py:112-116 | read from the run index, it is the run's part of the log, sorted by (timestamp, sequence) |
| `EventStore.InMemoryEventStore.ListAll` | src/nightledger_api/services/event_store.py:118-125 | concatenating the run lists in any dictionary order and sorting gives the sorted log |
| `EventStore.IndexesStep` | src/nightledger_api/services/event_store.py:68-110 | one append seen on the four maps: if they agree with the log before, the record made from them alone is the one the log defines, and they agree after |
| `EventStore.PermutationSorts` | src/nightledger_api/services/event_store.py:118-125 | every arrangement of a log's records sorts to the same listing |
| `EventLog.ListRunIsStableSort` | src/nightledger_api/services/event_store.py:112-116 | among all arrangements of a run's records, the listing is the only one by timestamp that keeps append order among equals |
| `EventLog.ListAllOfRun` | src/nightledger_api/services/event_store.py:112-125 | filtering the global listing by run gives the run's listing |
| `EventLog.IdsUnique` | src/nightledger_api/services/event_store.py:70-71 | in every log that appends can build, a run and an id name at most one record |
| `EventLog.MaxTimeIsGreatest` | src/nightledger_api/services/event_store.py:73-83 | the running maximum is attained by some event and exceeded by none |
| `EventLog.AppendInOrder` | src/nightledger_api/services/event_store.py:73-116 | an event no older than its run is unflagged, extends its run's listing at the end, and changes no other run's listing |
| `EventLog.GrowsKeeps` | src/nightledger_api/services/event_store.py:73-116 | any number of appends, each stamped after its run, keep the log well built, raise no flag, and only extend each run's listing |
| `AuditExport.VerifyHashChain` | src/nightledger_api/services/audit_export_service.py:51-73 | accepts exactly the event lists in which every event is linked to the one before it |
| `AuditExport.HeadDeterminesHistory` | src/nightledger_api/services/audit_export_service.py:51-73 | with a collision-free hash, two accepted lists that end in the same hash are equal, record by record, so no event can be altered, dropped, inserted or moved without changing the head |
| `AuditExport.AppendOrderChained` | src/nightledger_api/services/event_store.py:86-109 | in append order, every run of every log is a verified chain |
| `AuditExport.FlagMeaning` | src/nightledger_api/services/event_store.py:73-83 | an event is flagged if and only if some event appended before it to its run is later |
| `AuditExport.UnflaggedMeansSorted` | src/nightledger_api/services/event_store.py:73-116 | a run has no flagged event if and only if it was appended in sorted order |
| `AuditExport.HonestRunVerifies` | src/nightledger_api/services/audit_export_service.py:26-29 | the listing of a run that the store built verifies if and only if no event of the run is flagged, and exactly then the listing is the append order; so verification fails on honest runs appended out of order |
| `AuditExport.LateEventBreaksChain` | src/nightledger_api/services/event_store.py:73-109 | appending any event older than one of its run leaves the run with a listing that does not verify |
| `AuditExport.TwoAppendsBreakChain` | src/nightledger_api/services/event_store.py:73-109 | the smallest input: two appends to an empty store, the second one earlier |
| `AuditExport.ExportDecisionAudit` | src/nightledger_api/services/audit_export_service.py:8-48 | not found, cross-run and broken-chain errors in that order, and otherwise the run's events that carry the decision |
| `AuditExport.ExportExactly` | src/nightledger_api/services/audit_export_service.py:8-30 | each answer as an if and only if: not found if no event carries the decision, cross-run if events of two runs do, and of the one run a broken chain if and only if it has a flagged event, success if and only if not |
| `AuditExport.ExportInOrder` | src/nightledger_api/services/audit_export_service.py:26-48 | what is returned is what was appended to the run for the decision, in the order of appending |
| `AuditExport.ExportIsComplete` | src/nightledger_api/services/audit_export_service.py:8-48 | over a store's log a successful export is exactly what the whole log holds for the decision, and a broken-chain error means a flagged event in the decision's run |
| `RunStatusProjection.ProjectRunStatus` | src/nightledger_api/services/run_status_service.py:48-150 | the loop over status, pending approval and terminal status computes the fold, conflict for conflict |
| `RunStatusProjection.ErrorPersists` | src/nightledger_api/services/run_status_service.py:60-138 | a conflict in a prefix is the conflict of the whole: success is prefix-closed |
| `RunStatusProjection.ProjectionMeaning` | src/nightledger_api/services/run_status_service.py:48-198 | without the fold: projection succeeds if and only if every event fits where it stands (nothing after an ending, only an ending after a rejection, a resolution is well formed and closes an open request, a request finds none open), and then reports the one open request, or a status read off the last event |
| `RunStatusProjection.PausedIffPending` | src/nightledger_api/services/run_status_service.py:48-150 | status is paused if and only if an approval is pending |
| `RunStatusProjection.RequestsBalance` | src/nightledger_api/services/run_status_service.py:48-150 | requests minus resolutions is one while an approval is pending and zero otherwise, unless the run has ended |
| `RunStatusProjection.NextEnding` | src/nightledger_api/services/run_status_service.py:18-83 | by the payload's fields: after a projecting run that has not ended, a summary completes it, the two expiry steps expire it, the two stopping steps stop it, and nothing else ends it |
| `RunStatusProjection.NothingFollows` | src/nightledger_api/services/run_status_service.py:60-77 | after an ending any event conflicts, and after a rejection any event that is no ending |
| `RunStatusProjection.NextResolution` | src/nightledger_api/services/run_status_service.py:85-122 | by the payload's fields: which conflict a resolution causes, in order, or the status it sets |
| `RunStatusProjection.NextRequest` | src/nightledger_api/services/run_status_service.py:124-138 | by the payload's fields: a request pauses the run on its own id and time unless one is pending |
| `RunStatusProjection.NextOther` | src/nightledger_api/services/run_status_service.py:140-145 | any other event leaves a pending approval pending, and otherwise finds or sets the run running |
| `Approvals.RegisterPendingApprovalRequest` | src/nightledger_api/services/approval_service.py:66-146 | the store after a registration, or its refusal with the reason, as a function of the log |
| `Approvals.LatestReason` | src/nightledger_api/services/approval_service.py:87-98 | the reason given for refusing is pending exactly when the decision's latest event still asks |
| `Approvals.WasEventResolved` | src/nightledger_api/services/approval_service.py:534-549 | the early-returning loop computes the scan |
| `Approvals.ResolvePendingApproval` | src/nightledger_api/services/approval_service.py:149-190 | result and log of a resolution by event id, with all refusals, as a function of the log |
| `Approvals.ResolvePendingApprovalByDecisionId` | src/nightledger_api/services/approval_service.py:193-225 | result and log of a resolution by decision id |
| `Approvals.AppendResolutionEvent` | src/nightledger_api/services/approval_service.py:275-380 | the resolution's append, the demo continuation, its failure path, and the final projection, in order |
| `Approvals.AppendTriageCompletion` | src/nightledger_api/services/approval_service.py:383-459 | the two continuation appends; whether both succeeded, and what the log holds if only the first did |
| `Approvals.AppendTriageFailure` | src/nightledger_api/services/approval_service.py:462-503 | the failure event is appended if its id is free, and otherwise nothing happens |
| `Approvals.GetApprovalDecisionState` | src/nightledger_api/services/approval_service.py:228-272 | first request, last resolution and anchor, found by the loop, give the decision's state |
| `Verdicts.Signals` | src/nightledger_api/services/approval_service.py:552-583 | by the fields: what asks, what answers, which ids count as answers, and which approval goes on to the demo |
| `Verdicts.ScanExactly` | src/nightledger_api/services/approval_service.py:534-549 | for any run and any id: the scan finds an answer if and only if some answering event has an id that starts with the request's prefix, or comes when the request is the run's latest signal |
| `Verdicts.Registered` | src/nightledger_api/services/approval_service.py:66-146 | a registration is refused as a duplicate exactly when the decision has a state, and for its storage exactly when its id is taken; otherwise the decision is pending, on an event of its own, stamped as described |
| `Verdicts.ResolvedAs` | src/nightledger_api/services/approval_service.py:275-326 | a resolution that appends anything has decided the request's decision: approved if and only if the verdict was to approve, rejected if and only if it was to reject, by this approver, in this event, at this time |
| `Verdicts.ResolvedByDecisionAs` | src/nightledger_api/services/approval_service.py:193-225 | the same by decision id |
| `Verdicts.Written` | src/nightledger_api/services/approval_service.py:296-321 | the risk level, flags and content of the request that a registration appends and of the answer that a resolution appends |
| `Verdicts.DuplicateReason` | src/nightledger_api/services/approval_service.py:87-98 | a duplicate is called pending or resolved by the last event of the listing that asks or answers for the decision |
| `Verdicts.DemoWritten` | src/nightledger_api/services/approval_service.py:383-503 | the two events that the demo continuation appends, field by field, and the one that its failure appends |
| `Verdicts.ReceiptStamped` | src/nightledger_api/controllers/events_controller.py:806-809 | receipts are stamped with the clock, or one millisecond after the newest event of the run |
| `Verdicts.RejectedStays` | src/nightledger_api/controllers/events_controller.py:700-703 | while a decision stands rejected, which is for good, minting for it is refused, and no token ever signed for it was signed because it had been approved |
| `Verdicts.RejectedForGood` | src/nightledger_api/services/approval_service.py:193-225 | rejecting a decision leads there, after every run |
| `Verdicts.Refusals` | src/nightledger_api/services/approval_service.py:149-190 | only a resolvable request is resolved: no request is not pending, and an answered one that the run is paused on is a duplicate |
| `Verdicts.NotPausedOn` | src/nightledger_api/services/approval_service.py:165-190 | a request that its run is not paused on: a duplicate if it has an answer, else the run's conflict, else not pending |
| `Verdicts.Unfound` | src/nightledger_api/services/approval_service.py:149-164 | not found and ambiguous are exactly no event and several with the id |
| `Verdicts.DecisionUnfound` | src/nightledger_api/services/approval_service.py:193-225 | by decision id: not found, ambiguous and not pending, each by the events that carry the decision |
| `Ledger.FirstAskMeaning` | src/nightledger_api/services/approval_service.py:244-252 | the request reported is the first of the listing |
| `Ledger.LastAnswerMeaning` | src/nightledger_api/services/approval_service.py:244-252 | the resolution reported is the last of the listing |
| `Resolution.ScanOfPaused` | src/nightledger_api/services/approval_service.py:534-549 | for the request a run is paused on, the scan reports "resolved" if and only if some resolution's id starts with that request's prefix |
| `RunHealth.PrefixCollision` | src/nightledger_api/services/approval_service.py:149-190 | the scan errs: after a request is approved, any later request of the run whose id the first one extends with an underscore pauses the run, and resolving it is refused as a duplicate although nothing has resolved it |
| `RunHealth.PrefixCollisionReached` | src/nightledger_api/services/approval_service.py:534-549 | such a run from an empty store, for any id and any continuation of it: a request that ingest accepts, its approval, one more request that ingest accepts, and its refusal |
| `Resolution.AppendAfter` | src/nightledger_api/services/approval_service.py:286-290 | an append stamped after its run succeeds if its id is free, ends the run's listing, and touches nothing else |
| `Resolution.ResolutionAppended` | src/nightledger_api/services/approval_service.py:275-326 | the run that a resolution's own append leaves: stopped, approved, or (approved by a blank name) no longer projectable |
| `Resolution.ResolveStep` | src/nightledger_api/services/approval_service.py:149-190 | a resolution outside the demo: it fails with no effect if its id is taken, and otherwise adds one event, touches no other run, and leaves the run stopped after a rejection, approved after an approval, and broken exactly when the approver is blank |
| `Resolution.Continued` | src/nightledger_api/services/approval_service.py:383-459 | the demo continuation completes the run if and only if neither of its two ids is taken, and otherwise leaves it approved or running |
| `Resolution.FailureJournaled` | src/nightledger_api/services/approval_service.py:462-503 | the failure event, if its id is free, stops the run |
| `Resolution.ResolveDemo` | src/nightledger_api/services/approval_service.py:332-351 | approving the demo target completes the run; if the continuation cannot be appended the call fails, and the run is stopped if the failure event can be |
| `RuntimeReceipts.AppendRuntimeReceipt` | src/nightledger_api/controllers/events_controller.py:796-837 | the receipt's time and append as a function of the log; nothing changes when it is refused |
| `Ledger.StepGrows` | src/nightledger_api/services/approval_service.py:100-107 | registrations, resolutions, demo events and receipts are each stamped strictly after everything already in their run |
| `Ledger.RunGrows` | src/nightledger_api/controllers/events_controller.py:806-809 | the same over any interleaving of those steps |
| `Ledger.AuditNeverBreaks` | src/nightledger_api/services/audit_export_service.py:51-73 | from a ledger without flags, after any run of those steps every run's listing verifies and audit export never reports a broken chain |
| `Ledger.StateMeaning` | src/nightledger_api/services/approval_service.py:228-272 | under the ledger's invariant the reported state depends on the one request and the one resolution of the decision, not on listing order |
| `Decisions.StepKeepsOrder` | src/nightledger_api/services/approval_service.py:77-225 | every step keeps, for every decision, at most one request and at most one resolution, the latter of the former and later; and moves a decision only from not found to pending, or from pending to approved or rejected |
| `Decisions.DecisionsAreFinal` | src/nightledger_api/services/approval_service.py:228-272 | once approved or rejected, a decision's state is unchanged by any run of steps |
| `Decisions.ReachableOrder` | src/nightledger_api/services/approval_service.py:77-146 | in every reachable ledger each decision has at most one request and one resolution, in one run, the resolution stamped strictly after the request |
| `Decisions.ResolvedStaysResolved` | src/nightledger_api/services/approval_service.py:149-190 | in every later ledger, resolving a resolved request fails as duplicate, or as ambiguous if and only if its id is no longer unique, and appends nothing |
| `Decisions.DecidedStaysDecided` | src/nightledger_api/services/approval_service.py:193-225 | by decision id: in every ledger that steps reach from one where the decision is approved or rejected, resolving it fails as duplicate, or as ambiguous if and only if its request's id is no longer unique, and appends nothing |
| `Decisions.SuccessIsFinal` | src/nightledger_api/services/approval_service.py:149-190 | after a resolution has succeeded, in every ledger that extends it every further resolution of that event id fails in the same two ways and appends nothing |
| `Decisions.DecisionSuccessIsFinal` | src/nightledger_api/services/approval_service.py:193-225 | after a resolution by decision id has succeeded, in every ledger that extends it every further one fails and appends nothing |
| `RunHealth.RegisterHealth` | src/nightledger_api/services/approval_service.py:66-146 | a registration keeps its run projectable if and only if the run is open and nothing is pending in it; then the run is paused on the new request |
| `RunHealth.ReceiptHealth` | src/nightledger_api/controllers/events_controller.py:796-837 | a receipt keeps its run projectable if and only if the run has neither ended nor been rejected |
| `RunHealth.BrokenStaysBroken` | src/nightledger_api/services/run_status_service.py:60-138 | no run of steps repairs a run that does not project; its conflict never changes |
| `RunHealth.BrokenRunCannotResolve` | src/nightledger_api/services/approval_service.py:149-190 | no request of a broken run can be resolved, and the attempts append nothing |
| `RunHealth.SecondRegistrationDeadlocks` | src/nightledger_api/services/approval_service.py:66-190 | a second registration into a paused run, for a new decision under a free event id, is accepted, and after any later steps no request in that run can be resolved |
| `PendingList.ListPendingApprovals` | src/nightledger_api/services/approval_service.py:25-63 | holds the pending approval of every paused run, each once, in the order of reported time and id; fails if and only if some run does not project, with the error of the first such run in the order of ids |
| `PendingList.ItemMeaning` | src/nightledger_api/services/approval_service.py:34-59 | a run contributes an item if and only if it projects and has an open request, and the item is that request |
| `PendingList.OrderedMeaning` | src/nightledger_api/services/approval_service.py:62 | by position: in order of the reported text, and of ids under the same text |
| `PendingList.ItemFound` | src/nightledger_api/services/approval_service.py:34-48 | listing a run fails only if the run does not project: the error for a missing pending event never occurs |
| `PendingList.SortItemsOrdered` | src/nightledger_api/services/approval_service.py:62 | sorting by reported time and id puts no item after one that it precedes |
| `PendingList.ReceiptDisablesList` | src/nightledger_api/services/approval_service.py:25-35 | one receipt written into a run that has ended makes the list of all runs fail, after whatever steps may follow |
| `PendingList.BlockedExecutionDisablesList` | src/nightledger_api/controllers/events_controller.py:640-655 | an execution blocked for a refused token, naming an ended run, writes such a receipt |
| `RuleLanguage.ValidateNode` | src/nightledger_api/services/authorize_action_service.py:191-223 | the breadth-first walk accepts exactly the trees of which every node is allowed |
| `RuleLanguage.Progress` | src/nightledger_api/services/authorize_action_service.py:225-287 | evaluating what the validator accepts never reaches the "unsupported" errors of the evaluator or of the comparison |
| `RuleLanguage.ChainIsConjunction` | src/nightledger_api/services/authorize_action_service.py:274-281 | a chained comparison gives the value, or the error, of the short-circuit conjunction of its adjacent pairs |
| `RuleLanguage.CompareChain` | src/nightledger_api/services/authorize_action_service.py:274-281 | the loop evaluates the comparators in order, none twice, up to the first link that is false or fails and no further, and is true if and only if every link holds |
| `RuleLanguage.AttributePathOf` | src/nightledger_api/services/authorize_action_service.py:516-525 | the loop up the attribute bases gives the dotted path, root first |
| `RuleLanguage.ExtractContextPaths` | src/nightledger_api/services/authorize_action_service.py:548-561 | the walk collects exactly the context paths of the tree |
| `RuleLanguage.DottedIsLookup` | src/nightledger_api/services/authorize_action_service.py:246-257 | evaluating a dotted name rooted in context gives what the context holds at that path, and fails if and only if it holds nothing there |
| `RuleLanguage.AdvertisedSuffices` | src/nightledger_api/services/authorize_action_service.py:548-561 | if the context resolves every extracted path, evaluation never fails for a missing context path |
| `RuleLanguage.NonInterference` | src/nightledger_api/services/authorize_action_service.py:225-287 | where context occurs only as the base of an attribute, two contexts that agree on the extracted paths give the same value or the same error |
| `RuleMeaning.ConstantMeaning` | src/nightledger_api/services/authorize_action_service.py:226-227 | a constant is its value |
| `RuleMeaning.NameMeaning` | src/nightledger_api/services/authorize_action_service.py:229-244 | the two inputs and three constants have values, and any other name is an error |
| `RuleMeaning.AttributeMeaning` | src/nightledger_api/services/authorize_action_service.py:246-257 | an attribute is looked up in the dictionary before it; what is missing is reported by its spelling, and anything but a dictionary is an error |
| `RuleMeaning.NotMeaning` | src/nightledger_api/services/authorize_action_service.py:265-266 | a negation is true if and only if its operand is none of None, false, zero and the empty collections turned round |
| `RuleMeaning.BoolMeaning` | src/nightledger_api/services/authorize_action_service.py:268-272 | an and is false if and only if some operand is falsy and all before it are truthy, true if and only if all are truthy, and fails with the first that fails before one is falsy; dually for or |
| `RuleMeaning.CompareMeaning` | src/nightledger_api/services/authorize_action_service.py:528-545 | a comparison of two values is Python's operator on them, in this order; identity is unsupported, and errors of operands pass through |
| `RuleMeaning.LoneOperand` | src/nightledger_api/services/authorize_action_service.py:274-281 | a comparison without operators is true of whatever has a value |
| `RuleMeaning.DisplayMeaning` | src/nightledger_api/services/authorize_action_service.py:259-263 | a list or tuple has a value if and only if all elements have, and it is theirs in order; otherwise the first failing element decides |
| `RuleMeaning.AllowedExactly` | src/nightledger_api/services/authorize_action_service.py:191-223 | the validator lets through exactly the trees without foreign syntax, without operators other than not, and without identity |
| `RuleMeaning.AdvertisedExactly` | src/nightledger_api/services/authorize_action_service.py:548-561 | a path is advertised if and only if some attribute of the expression spells context and then the path |
| `RuleMeaning.AdvertisesForeignContext` | src/nightledger_api/services/authorize_action_service.py:516-561 | an attribute called context of something that is no name counts as the input |
| `Policy.EvaluateMeaning` | src/nightledger_api/services/authorize_action_service.py:154-189 | a rule's outcome is a boolean value of an allowed condition, a missing input is reported with its path, and all else is an error of the expression |
| `Policy.DecisionMeaning` | src/nightledger_api/services/authorize_action_service.py:309-335 | the rules reported are the counting ones in the order of the rule set, the reason goes with the state, and the error is the first failing rule's |
| `Policy.EvaluateRule` | src/nightledger_api/services/authorize_action_service.py:154-189 | parse, validation and evaluation errors, and non-boolean results, are told apart as the evaluator does |
| `Policy.WinnerRule` | src/nightledger_api/services/authorize_action_service.py:403-411 | the first rule of the highest priority |
| `Policy.EvaluateAuthorizeAction` | src/nightledger_api/services/authorize_action_service.py:290-335 | the loop decides as "the strictest matched action, or allow" does, and stops at the first failing rule |
| `Policy.AuthorizeMeaning` | src/nightledger_api/services/authorize_action_service.py:311-335 | an error if and only if some rule for the action fails; otherwise deny if and only if some counting rule denies, allow if and only if all counting rules allow, and "no match" if and only if none counts |
| `Policy.OrderIrrelevant` | src/nightledger_api/services/authorize_action_service.py:311-335 | the order and repetition of rules change neither whether there is an error nor the state or reason |
| `Policy.UnprotectedIsAllowed` | src/nightledger_api/services/authorize_action_service.py:311-322 | an action that no rule names is always allowed, with no match |
| `Policy.GetPolicyCatalog` | src/nightledger_api/services/authorize_action_service.py:338-389 | for each action that some rule names, exactly the ids of the rules that name it and exactly the context paths that any of them reads |
| `Policy.CatalogSuffices` | src/nightledger_api/services/authorize_action_service.py:338-389 | a context that resolves an action's required fields is never refused for missing one |
| `Policy.CatalogNonInterference` | src/nightledger_api/services/authorize_action_service.py:338-389 | two contexts that agree on an action's required fields get the same decision or the same error |
| `Base64Url.StripIsUndone` | src/nightledger_api/services/execution_token_service.py:264-270 | stripping removes exactly the padding, adding "-len % 4" restores exactly it, and no text contains a dot |
| `Base64Url.RoundTrip` | src/nightledger_api/services/execution_token_service.py:264-270 | decoding the encoding of any bytes gives those bytes |
| `Base64Url.SameBits` | src/nightledger_api/services/execution_token_service.py:264-265 | three bytes and their four digits are the same 24 bits, and a rest is filled up with zero bits |
| `Base64Url.UpperCase` | src/nightledger_api/services/execution_token_service.py:264-265 | the first 26 digits of the alphabet |
| `Base64Url.LowerCase` | src/nightledger_api/services/execution_token_service.py:264-265 | the next 26 |
| `Base64Url.Numerals` | src/nightledger_api/services/execution_token_service.py:264-265 | the last 12 |
| `Prelude.StripMeaning` | src/nightledger_api/services/execution_token_service.py:52-53 | what stripping leaves is the text without the white space around it |
| `ExecutionTokens.SplitMeaning` | src/nightledger_api/services/execution_token_service.py:71-74 | splitting takes a text apart at all its dots and nowhere else |
| `ExecutionTokens.SecondsMeaning` | src/nightledger_api/services/execution_token_service.py:110-112 | whole seconds, rounded towards zero |
| `ExecutionTokens.FieldNames` | src/nightledger_api/services/execution_token_service.py:42-54 | the names under which a token holds its claims; an absent claim has no entry |
| `ExecutionTokens.MintedRefused` | src/nightledger_api/services/execution_token_service.py:110-124 | each refusal of a minted token as an if and only if, in order: too early, another action, another payload, too late |
| `ExecutionTokens.SplitAtDot` | src/nightledger_api/services/execution_token_service.py:71-74 | a payload and a signature without dots are what splitting the token gives |
| `ExecutionTokens.MintedVerifies` | src/nightledger_api/services/execution_token_service.py:62-138 | a minted token verifies to its own claims, or fails with the first claim check that it fails |
| `ExecutionTokens.TokenLifetime` | src/nightledger_api/services/execution_token_service.py:25-59 | a token minted at t for ttl seconds verifies for its action and payload exactly in the whole seconds from floor(t) up to, not including, floor(t) + ttl |
| `ExecutionTokens.VerifiedIsSigned` | src/nightledger_api/services/execution_token_service.py:62-138 | whatever verifies was signed under a configured key and passes every claim check |
| `ExecutionTokens.VerifiesExactly` | src/nightledger_api/services/execution_token_service.py:62-138 | a token verifies to claims if and only if it is a payload and its signature under the configured key that it names, holds the claims under their names, and they are good now for this action and payload |
| `ReplayStore.SQLiteExecutionReplayStore.PurgeExpired` | src/nightledger_api/services/execution_replay_store.py:44-49 | deletes exactly the rows that expired before now |
| `ReplayStore.SQLiteExecutionReplayStore.ConsumeOnce` | src/nightledger_api/services/execution_replay_store.py:17-27 | succeeds if and only if the id has no unexpired row, and then adds its row |
| `ReplayStore.StepsOnRecord` | src/nightledger_api/services/execution_replay_store.py:17-49 | in every interleaving, a consumed token is on record until the clock has passed its expiry |
| `ReplayStore.SecondUseIsLate` | src/nightledger_api/services/execution_token_service.py:114-125 | a second consumption is possible only after the token's last second |
| `ReplayStore.SingleUse` | src/nightledger_api/services/execution_replay_store.py:17-49 | in every interleaving in which no request inserts after its token's expiry, each token is consumed at most once; a condition on the clock alone |
| `ReplayStore.SecondUseExactly` | src/nightledger_api/services/execution_replay_store.py:17-49 | inserting a consumed token consumes it again if and only if some deletion since its last consumption used a reading of the clock past its expiry |
| `ReplayStore.ReuseExactly` | src/nightledger_api/services/execution_replay_store.py:17-49 | an interleaving consumes a token more than once if and only if one of its steps inserts the token after it has been consumed and then so deleted |
| `ReplayStore.LateInsertionReuses` | src/nightledger_api/services/execution_replay_store.py:17-49 | this happens to every token that lives at all: nine steps in which two requests each verify, purge and insert, and the overtaken one consumes it again |
| `ReplayStore.Overtaken` | src/nightledger_api/services/execution_replay_store.py:17-49 | in every interleaving, any request that holds a consumed token consumes it again if it reads the clock, purges and inserts once the clock is past the expiry |
| `ReplayStore.AtomicSingleUse` | src/nightledger_api/services/execution_replay_store.py:17-49 | requests that verify and consume at one instant need no condition |
| `Gateway.BuildRunFacts` | src/nightledger_api/controllers/events_controller.py:766-777 | the facts that rules see, or the run's conflict |
| `Gateway.EvaluateRequest` | src/nightledger_api/services/authorize_action_service.py:290-335 | facts, catalog version and rules are checked in this order, and the first error is the answer |
| `Gateway.AuthorizeAction` | src/nightledger_api/controllers/events_controller.py:316-362 | reply, log and signed claims of an authorization, also when a receipt is refused midway |
| `Gateway.MintExecutionTokenForDecision` | src/nightledger_api/controllers/events_controller.py:695-728 | reply, log and signed claims of minting for a decision |
| `Gateway.ExecutePurchaseCreate` | src/nightledger_api/controllers/events_controller.py:620-691 | reply, log and used tokens of an execution attempt; an exception that verification does not foresee leaves no receipt |
| `Handling.EvaluationErrors` | src/nightledger_api/controllers/events_controller.py:766-777 | which error a request meets: its run does not project, the catalog's version, or some rule of the requesting user's fails over the request's own context and run |
| `Handling.EvaluationMeaning` | src/nightledger_api/services/authorize_action_service.py:290-335 | without an error: denied if and only if some rule of the requesting user's counts and denies, allowed if and only if all that count allow; over the request's own context, the number of events of its run, and whether that has an open request |
| `Handling.AuthorizeReplies` | src/nightledger_api/controllers/events_controller.py:316-362 | every reply, and the receipts in the request's run: one for a decision, a second for a token, each failing on its id |
| `Handling.MintReplies` | src/nightledger_api/controllers/events_controller.py:695-728 | every reply by the decision's state, and the receipt in its run |
| `Handling.ExecuteReplies` | src/nightledger_api/controllers/events_controller.py:620-640 | without a token nothing happens; with one, all depends on how it verifies for this purchase |
| `Handling.UnverifiedReplies` | src/nightledger_api/controllers/events_controller.py:635-655 | a refused token leaves a receipt in the named run and no trace in the table |
| `Handling.VerifiedReplies` | src/nightledger_api/controllers/events_controller.py:656-691 | a verified token executes if and only if its id has no unexpired row, with a receipt for its decision either way; and what the table holds after |
| `Enforcement.NextIsEnforced` | src/nightledger_api/controllers/events_controller.py:316-362 | every step of authorizing, registering, resolving, receipts, minting, executing and time keeps the enforcement invariant |
| `Enforcement.RunIsEnforced` | src/nightledger_api/controllers/events_controller.py:619-728 | so does every run, for an adversary who chooses all inputs but cannot forge a signature |
| `Enforcement.SignedIsJustified` | src/nightledger_api/controllers/events_controller.py:695-728 | what a step signs, it signs because its request has just been evaluated to allow, or because its decision stands approved |
| `Enforcement.VerifiedIsMinted` | src/nightledger_api/services/execution_token_service.py:62-138 | under unforgeability, what verifies carries the claims of a minted token |
| `Enforcement.ExecutedIsCovered` | src/nightledger_api/controllers/events_controller.py:620-691 | an execution spends a minted token for its purchase within its lifetime, and one that no earlier execution has spent |
| `Enforcement.EndToEnd` | src/nightledger_api/controllers/events_controller.py:315-728 | in every run from the empty system, each executed purchase carries a token minted earlier for the same decision and payload hash, with nbf <= now < exp, and at mint time that decision was evaluated to allow or stood approved |
| `Enforcement.ExecutedOnce` | src/nightledger_api/services/execution_replay_store.py:17-49 | no token is executed twice in any run, purging included |
| `Enforcement.UnapprovedNeverExecutes` | src/nightledger_api/controllers/events_controller.py:695-728 | whatever was executed for a decision that is not approved at the end of the run had been allowed by the policy outright |
| `Enforcement.ExecutedAsRequested` | src/nightledger_api/controllers/events_controller.py:341-350 | in every run, what is executed with an allowed request's token has the payload hash of the purchase that the request described, so it is that purchase unless these two collide |
| `Enforcement.MintedExecutes` | src/nightledger_api/controllers/events_controller.py:620-691 | a minted token can always be presented, and executes a purchase if and only if it was minted for that purchase, is within its lifetime, is not on record as used, and the receipt's id is free |
| `Enforcement.AllowedPurchaseExecutes` | src/nightledger_api/controllers/events_controller.py:316-362 | so purchases do execute: the token that answers an allowed request, presented at once, executes the requested purchase, if the ids drawn for token and receipt are new |
| `Recorded.EveryExecutionIsRecorded` | src/nightledger_api/controllers/events_controller.py:656-691 | in every run, for every decision, the ledger holds at least as many receipts of executed purchases as purchases have been executed |
| `Spending.MintsAgain` | src/nightledger_api/controllers/events_controller.py:695-728 | a decision that stands approved can be minted for again, for any purchase, under new ids |
| `Spending.BothExecute` | src/nightledger_api/controllers/events_controller.py:620-691 | any two minted tokens that could each execute a purchase execute both, one after the other, also when they are for one decision |
| `Spending.ApprovalBuysAny` | src/nightledger_api/controllers/events_controller.py:695-728 | from every state in which a decision stands approved, some run executes any list of purchases on that one approval |
| `BusinessRules.ValidateEventBusinessRules` | src/nightledger_api/services/business_rules_service.py:19-176 | the violations, in the order in which the branches add them, or the existing run's conflict alone |
| `BusinessRules.IngestEvent` | src/nightledger_api/controllers/events_controller.py:371-392 | violations, a duplicate id, or one append, and the log after each |
| `BusinessRules.ResolutionVerdict` | src/nightledger_api/services/business_rules_service.py:72-125 | every violation of a resolution as an if and only if, by the event's fields and the decision that the run waits for; and that there is no other |
| `BusinessRules.ResolutionAccepted` | src/nightledger_api/services/business_rules_service.py:72-125 | a resolution is accepted if and only if the run projects and waits for its decision or for a request without one, and approver and time are given |
| `RunHealth.WaitsForOpen` | src/nightledger_api/services/business_rules_service.py:79-102 | in a run of the store, waiting for a decision is having an open request that carries it |
| `BusinessRules.RequestVerdict` | src/nightledger_api/services/business_rules_service.py:49-70 | a request is accepted if and only if the run has not ended and it is flagged as pending approval |
| `BusinessRules.SummaryVerdict` | src/nightledger_api/services/business_rules_service.py:127-162 | a summary is accepted if and only if the run projects, has not ended and waits for nothing, and it asks for no approval |
| `BusinessRules.OtherVerdict` | src/nightledger_api/services/business_rules_service.py:164-176 | an action is accepted if and only if the run has not ended and it has evidence or is neither high risk nor requires approval; anything else if and only if the run has not ended |
| `BusinessRules.AcceptedEvent` | src/nightledger_api/services/business_rules_service.py:19-222 | an accepted event at the end of a projecting run breaks it if and only if it is in the gap between the gate's checks and the projection's, and then with the gap's conflict, which is never that of a run already ended |
| `BusinessRules.IngestKeepsRun` | src/nightledger_api/controllers/events_controller.py:371-392 | the same through ingest into the store, for an event no older than its run; other runs are unchanged |
| `BusinessRules.AcceptedResolution` | src/nightledger_api/services/business_rules_service.py:19-176 | every accepted resolution that approves or rejects projects cleanly, with the status it asks for and nothing pending |
| `BusinessRules.AcceptedSummary` | src/nightledger_api/services/business_rules_service.py:19-176 | every accepted summary completes the run and abandons no approval |
| `BusinessRules.SecondRequestBreaks` | src/nightledger_api/services/business_rules_service.py:19-176 | the gap is real: any second request into a paused run is accepted, and the run never projects again |
| `IsoTime.FromInstant` | src/nightledger_api/services/event_store.py:193 | every instant of years 1 to 9999 has calendar fields, whose instant it is |
| `IsoTime.FieldsOrderTime` | src/nightledger_api/services/event_store.py:193 | calendar fields, most significant first, are ordered as instants are |
| `IsoTime.TextOrderIsTimeOrder` | src/nightledger_api/services/event_store.py:221 | the stored text, microseconds omitted when zero, sorts by time, and no two instants share a text |
| `IsoTime.ZuluOrder` | src/nightledger_api/services/approval_service.py:62 | the text with "Z" that the pending list sorts on orders two instants rightly if and only if they do not share a second of which exactly one has zero microseconds |
| `SqliteStore.SQLiteAppendOnlyEventStore.SelectLast` | src/nightledger_api/services/event_store.py:149-158 | the last appended row of a run |
| `SqliteStore.SQLiteAppendOnlyEventStore.Append` | src/nightledger_api/services/event_store.py:144-212 | refuses exactly the pairs on record; otherwise inserts one row, flagged against the last appended row |
| `SqliteStore.SQLiteAppendOnlyEventStore.ListByRunId` | src/nightledger_api/services/event_store.py:214-225 | holds the run's events, and where all timestamps are ones a datetime can hold, in the order of time and sequence |
| `SqliteStore.SQLiteAppendOnlyEventStore.ListAll` | src/nightledger_api/services/event_store.py:227-236 | holds all events, and where all timestamps are ones a datetime can hold, in the order of time and sequence |
| `SqliteStore.FlagMeaning` | src/nightledger_api/services/event_store.py:149-166 | the flag says that the event is older than the last one appended to its run |
| `SqliteStore.FlagsDiffer` | src/nightledger_api/services/event_store.py:73-166 | so the backends differ on three events of a run of which the third is between the first two in time |
| `SqliteStore.OrderByTextIsSorted` | src/nightledger_api/services/event_store.py:221 | ordering rows by timestamp text is ordering them by time |
| `SqliteStore.FlagsStep` | src/nightledger_api/services/event_store.py:144-212 | one accepted event keeps the two backends' records in agreement |
| `SqliteStore.BackendsAgree` | src/nightledger_api/services/event_store.py:73-212 | offered the same events, both backends accept the same ones; a flag in SQLite is a flag in memory; and up to and including a run's first flag the records, hashes included, are identical |
| `SqliteStore.ListingsAgree` | src/nightledger_api/services/event_store.py:112-236 | both list the same ids, timestamps and payloads in the same order, per run and globally; and an unflagged run is identical in both |
| `Framing.InputStream.ReadLine` | src/nightledger_api/mcp_server.py:39-41 | the bytes up to and including the next line feed, removed from the stream |
| `Framing.InputStream.ReadBytes` | src/nightledger_api/mcp_server.py:57-60 | at most n bytes, or all of them for a negative n, removed from the stream |
| `Framing.ReadFramedMessage` | src/nightledger_api/mcp_server.py:37-65 | headers, length, body and every refusal, and what is left of the stream |
| `Framing.ReadingConsumes` | src/nightledger_api/mcp_server.py:37-65 | every attempt to read a non-empty stream consumes a byte; an empty one is reported as its end |
| `Framing.LengthRoundTrip` | src/nightledger_api/mcp_server.py:53-57 | a printed length parses to itself |
| `Framing.WriteFramedMessage` | src/nightledger_api/mcp_server.py:68-72 | appends exactly one frame to the output |
| `Framing.FrameText` | src/nightledger_api/mcp_server.py:68-72 | a frame spelled out, label, length, two line ends and body |
| `Framing.HeaderMeaning` | src/nightledger_api/mcp_server.py:47-51 | a line names what is before its first colon, in any case and spacing; one without a colon is ignored |
| `Framing.ReadHeader` | src/nightledger_api/mcp_server.py:40-51 | one header line is taken, and must be UTF-8 |
| `Framing.ReadEnd` | src/nightledger_api/mcp_server.py:40-46 | an empty line of either kind ends the headers; the end of the stream is fine only before any |
| `Framing.BodyMeaning` | src/nightledger_api/mcp_server.py:53-65 | exactly the announced bytes are parsed; no JSON is a parse error, everything else that is wrong an invalid request |
| `Framing.LengthMeaning` | src/nightledger_api/mcp_server.py:57 | a length may have a sign, white space and underscores, and nothing else besides digits |
| `Framing.ServeAnswers` | src/nightledger_api/mcp_server.py:13-34 | each round answers what it read, with one of two errors or with the response |
| `Framing.ReadFrame` | src/nightledger_api/mcp_server.py:37-72 | reading a written frame gives the message and leaves what follows |
| `Framing.FramesRoundTrip` | src/nightledger_api/mcp_server.py:37-72 | reading the frames of any list of messages gives exactly that list, and then the end of the stream |
| `Framing.ServeStreams` | src/nightledger_api/mcp_server.py:11-34 | ends on every finite input, having consumed it all, and writes what the rounds define |
| `Framing.ServesEveryMessage` | src/nightledger_api/mcp_server.py:11-34 | served the frames of any messages, the loop writes exactly the frames of their responses, in order |

## Left out

- Events: `content` stands for every field on which no service branches (actor, title, details, confidence, requester, reason, workflow, the evidence items); in receipts and demo events it is the constant 0.
- Events: schema validation has happened; a payload is taken as validated and its timestamp as UTC.
- Events: overflow of a datetime by a timestamp at the end of year 9999 is modelled only in `IsoTime` and `SqliteStore`.
- Store failures other than a duplicate id; the SQLite engine itself, whose table is a sequence of rows and whose uniqueness constraint is a test for membership.
- AuditExport.ExportDecisionAudit: returns the events; the report's renaming of their fields is not modelled.
- Approvals: response dictionaries beyond the fields that later steps depend on, timing fields, and the performance counter.
- Approvals: the compact timestamp and random digits in generated ids are one parameter, so nothing is proved about their format.
- PendingList.ListPendingApprovals: items keep the fields that the model's events have; the count in the response is their number.
- Enforcement.EndToEnd: raw ingest and the demo reset are not among its steps, and handlers are atomic; interleaving of executions is the subject of `ReplayStore`.
- Enforcement.EndToEnd: a token minted for an approved decision carries the payload hash of the mint request, as the code has it; that nothing ties this purchase, or their number, to what was approved is `Spending.ApprovalBuysAny`.
- ExecutionTokens.MintedVerifies: secrets and key maps are given; reading and strength checks of the environment are not modelled.
- ExecutionTokens.VerifiedIsSigned: a JSON boolean is not taken for an integer, and an expiry beyond the year 9999 does not fail.
- ReplayStore.SQLiteExecutionReplayStore.ConsumeOnce: takes the clock reading as a parameter, where the code reads it once while purging; the lock and the database file are not modelled.
- RuleLanguage.ValidateNode: trees come already parsed; a condition that is not valid Python is `None`.
- RuleLanguage.Progress: numbers are reals, so floating-point rounding, NaN and infinities are not modelled; a value outside the modelled kinds has only its truth value.
- Policy.GetPolicyCatalog: one user's catalog; the union over all users and the sorting of the lists for output are not modelled.
- Framing.ReadFramedMessage: white space and digits in headers are the ASCII ones; a length beyond a machine word or beyond Python's limit on digits, which fails before reading, is read like any other.
- Framing.ServeStreams: the handling of a message is a function value; the JSON-RPC dispatch behind it and the remote HTTP server are not modelled.
- The journal projection, rule-file loading and its cache, HTTP routing, logging, error presentation, the web application, scripts and demo data are not part of this model.
