# HEPHA, verified

This project models the parts of HEPHA that decide something and proves what they promise: the
ingress of authoritative review evidence, the architecture-debt register and its future-touch gate,
the phase engine, canonical JSON and the parity projection, the Markdown readers and writers, the
shell scanner, final verification, module reachability and the workflow runner. `dafny verify
dfyconfig.toml` checks all of it.

How the source's forms are kept: loops over arrays and Sets are methods with invariants, proved
against a specification function about which the lemmas speak; objects that change state
(`IngressHost.Host`, `DebtRegister.Store`, `PhaseAdapter.Disk`, `WorkflowRunner.Runner`) are
classes; expressions and recursion are functions. Every lemma carries `{:induction false}`, so each
proof is the one that is written.

## Components

- `Ingress` is the protocol as steps of any number of invocations over shared files, leases and
  rows; a crash is a step. `IngressAnswers` and `IngressEffects` say what each invocation answers
  and does, of its own operations. `IngressLimits` says exactly when two tempting claims hold.
  `IngressHost` is the sequential text of one invocation, proved to be a run of its own process.
- `DebtPolicy`, `DebtRows` and `DebtRegister` are one triage action, the rows a record is read back
  from, and all runs of commands; `DebtOutcomes`, `DebtReading` and `DebtCommands` say what each
  answers, field by field. `DebtLinks` holds observations that are refused, `DebtRace` and
  `DebtCrossing` are triage by several processes. `TouchSelectors`, `TouchInput` and `FutureTouch`
  are the gate on planned changes, `TouchOutcomes` its answers.
- `PhaseStatuses`, `PhasePolicy`, `PhaseInvariance`, `PhaseRun`, `PhaseDecisions`, `PhaseLiveness`,
  `PhaseWorker`, `PhaseAdapter` and `PhaseCrash` are the reconciler, each of its decisions exactly,
  its whole runs and when they end well, its caller, its disk and its interruptions;
  `ContractReading`, `PhaseContract`, `ContractRules`, `PhaseNumbers`, `OrderedTasks`, `PhaseQueue`
  and `PhaseDocuments` are the contract parser and the task queue; `LedgerLines`, `LedgerGrammar`,
  `PhaseLedger`, `LedgerRules`, `LedgerItems` and `LedgerGaps` are the Markdown ledger and its two
  readers.
- `CanonicalJson` is the bytes that are hashed; `CanonicalJsonReading`, `CanonicalJsonForms` and
  `CanonicalJsonLaws` prove what those bytes determine, and `CanonicalJsonText` which bytes they
  are. `RankSort`, `ParityProjection`, `ParityRules` and `QueueOrder` are the orders the parity
  hashes do not depend on.
- `DeliveryTable`, `DeliverySection`, `DeliveryRows`, `DeliveryValues`, `DeliveryDocument`,
  `DeliveryRules`, `InventoryGrid`, `InventoryRules`, `FeatureTasksStatus`, `InventoryGap`,
  `TableCells` and `TableRules` are three pairs of Markdown reader and writer, over `Text` and
  `TextLines`.
- `ShellScan`, `ShellQuoting`, `ShellCargo`, `ShellWords`, `VerificationProfile`,
  `VerificationRules`, `VerificationRun`, `Reachability`, `WorkflowSpec` and `WorkflowRunner` are
  the imperative loops with strong specifications.
- `Sorting`, `TextOrder`, `Utf16`, `Filtering`, `Spelling`, `Decimals` and `Wrappers` are shared.

The modules named for rules, grammar, words, answers or decisions say of the characters and fields
themselves what the functions beside them compute, with every name, limit and table written out.

## Where code and claim part

- The lease is per publication path, while its comment speaks of the content hash. At the level of
  paths no unlink ever hits a committed file; at the level of hashes the claim holds exactly when
  equal hashes are published at equal paths (`IngressLimits.HashFreeAtUnlinkIff`).
- A committed row may lack its file when two invocations carry the same request; the read-back then
  refuses (`IngressLimits.EveryRowHasFileIff`).
- The confirmed-action service spreads `targetRecordId` beside the resolved target, and the policy
  demands exact keys, so MERGE and SUPERSEDE through that service are always refused
  (`DebtPolicy.ServiceNeverMerges`).
- The delivery section loses numbers that are zero or negative, and every update of a document that
  has the section adds one blank line before its heading (`DeliveryDocument.RoundTripIff`,
  `DeliveryDocument.UpdatesGrow`).
- The Markdown table escape leaves backslashes alone; rows still read back, because cells are
  rendered between spaces, exactly under the condition of `TableCells.RowSurvivesIff`.
- The test for repeated documents in an execution contract never decides
  (`PhaseContract.DocumentTestIsImplied`), and neither does the one-step cycle test of the debt
  policy (`DebtPolicy.OpenTargetImpliesNoCycle`).
- Replacing a status in a legacy inventory table can turn the row into a header of the contract
  kind; `FeatureTasksStatus.ReplaceKeepsTableIff` says exactly when, and `InventoryGap.RowTakesOver`
  shows a document.
- The parity test and the extractor read the ledger differently: the test takes everything up to the
  next second-level heading, the extractor resets its section at every titled heading, keeps the last
  of two equal ids, and takes checkboxes that are under way. A document can pass the test and have a
  queue that is not its ledger (`LedgerGaps`); `PhaseLedger.ProjectionIsLedgerIff` says exactly when.
- A promotion that stops after the document write and before the row leaves the row behind, and no
  later reconciliation repairs it (`PhaseCrash.PromotionRepeatsIff`, `PhaseCrash.LostRow`).
- The commit of a triage checks the version of the acting record only. Two processes can merge two
  records into each other, and any two fresh records of a project will do (`DebtCrossing.FreshPairCycles`);
  `DebtRace.InterleavedAcyclicIff` says exactly which runs stay acyclic.
- A valid new observation of a record at the right version can still be rolled back when it is read
  back: when a triage was ever recorded, because every triage payload is compared with the number of
  observations there are now; when 128 are linked already; when it sorts before the discovery by link
  time, as text, and hash, as a link half a second after the creation does when only the later time is
  written with milliseconds; and when its artifact id and path are linked under other content.
  `DebtRegister.LinkCommitsIff` is the exact condition; `DebtLinks` has an input for each.
- A decision's selector list is limited to 128 entries while a record's own list is not, so a record
  can be touched in more ways than any decision may name (`FutureTouch.DecidableIff`).

## Model

| member | source | states |
|---|---|---|
| Ingress.StepIsTransition | apps/orchestrator/src/authoritative-review-integration.ts:511-601 | Every operation of every invocation, crash and failure included, changes files, leases and rows only in the ways the protocol's transition relation lists |
| Ingress.StepKeepsInv | apps/orchestrator/src/authoritative-review-integration.ts:541-601 | Each single step keeps the ownership invariant: one lease holder per path, rows that only grow, files matching what was published |
| Ingress.RunKeepsInv | apps/orchestrator/src/authoritative-review-integration.ts:541-601 | The invariant holds after every interleaving of any number of invocations |
| Ingress.LeaseIsExclusive | apps/orchestrator/src/authoritative-review-integration.ts:77-94 | In every reachable state at most one invocation holds the lease of a publication path |
| Ingress.UnlinkSparesCommitted | apps/orchestrator/src/authoritative-review-integration.ts:511-539 | The cleanup unlink never removes the file a committed row points to, although the absence check, the byte check and the unlink are separate steps |
| Ingress.StoredForever | apps/orchestrator/src/authoritative-review-integration.ts:584-599 | Once a row and its matching file are both there, no later step of any invocation takes either away |
| Ingress.PersistedMeansStored | apps/orchestrator/src/authoritative-review-integration.ts:584-592 | An answer of persisted, authoritative or not, means the row and the matching file are there now and in every later state |
| IngressAnswers.AnswerIff | apps/orchestrator/src/authoritative-review-integration.ts:541-601 | Under every interleaving the answer is the one an invocation's own operations call for: durable exactly when the transaction succeeded, row and file were read back and the rendering succeeded, then authoritative exactly unless the kind is debt_observation, and each refusal for its own stage |
| IngressAnswers.DurableIff | apps/orchestrator/src/authoritative-review-integration.ts:584-599 | An invocation ends with a durable answer exactly when every stage succeeded and it lived to release its lease |
| IngressAnswers.TenOperationsEnd | apps/orchestrator/src/authoritative-review-integration.ts:541-601 | After ten operations of its own, none of them a crash, an invocation has ended, whatever the others do in between |
| IngressAnswers.AloneItSucceeds | apps/orchestrator/src/authoritative-review-integration.ts:541-601 | Left alone, with its path and hash free and nothing failing, an invocation answers durably in its kind, its row and file are stored and its lease is released |
| IngressEffects.EffectsAre | apps/orchestrator/src/authoritative-review-integration.ts:511-601 | Under every interleaving each operation of an invocation changes files and rows exactly so: it links its file when none is there, inserts its row under the lease when the hash is free, and unlinks its file only after publishing it anew, a transaction that reported no commit, and absence, own bytes and absence again |
| IngressEffects.LeasesAre | apps/orchestrator/src/authoritative-review-integration.ts:77-94 | Under every interleaving an operation takes the lease exactly when the publication is done and the path is free, and gives it back exactly when it ends the invocation that holds it and does not fail |
| Ingress.OneWinnerPerHash | apps/orchestrator/src/authoritative-review-integration.ts:554-583 | Of all invocations with one content hash at most one commits, in every interleaving |
| IngressLimits.HashFreeAtUnlinkIff | apps/orchestrator/src/authoritative-review-integration.ts:70-94 | The documented claim that no unlink happens while its hash is committed holds in every run from an empty store exactly when requests with the same hash name the same path |
| IngressLimits.DisagreementBreaks | apps/orchestrator/src/authoritative-review-integration.ts:77-94 | A schedule, built for any two requests with one hash and two paths, in which the unlink happens while the hash is committed |
| IngressLimits.EveryRowHasFileIff | apps/orchestrator/src/authoritative-review-integration.ts:541-601 | Every committed row has its file in every run exactly when no two invocations carry the same request |
| IngressLimits.EqualRequestsBreak | apps/orchestrator/src/authoritative-review-integration.ts:556-564 | A schedule, for any two equal requests, in which a reused publication is cleaned up before the second invocation commits |
| IngressHost.Host.Publish | packages/db/src/review-governance/artifact-file-store.ts:142-208 | The no-replace publication: a run of protocol steps that creates the file, reuses equal bytes, or throws, and which of the three for which file found and which failure |
| IngressHost.Host.AcquireLease | apps/orchestrator/src/authoritative-review-integration.ts:77-94 | One protocol step; the lease is taken exactly when it was free |
| IngressHost.Host.Ingest | apps/orchestrator/src/authoritative-review-integration.ts:566-583 | One protocol step that commits exactly when the hash is free and the store does not fail; what the caller learns is the commit or the mapped refusal |
| IngressHost.Host.ReadBack | apps/orchestrator/src/authoritative-review-integration.ts:584-592 | A run of protocol steps of this invocation alone, ending with the answer: durable exactly when row and file are read back and the rendering succeeds, and authoritative exactly unless the kind is debt_observation |
| IngressHost.Host.Reconcile | apps/orchestrator/src/authoritative-review-integration.ts:511-539 | The conditional cleanup: a run of protocol steps, whichever check fails first; the file is removed exactly when it is the invocation's own orphan and no operation fails |
| IngressHost.Host.PersistAndRender | apps/orchestrator/src/authoritative-review-integration.ts:541-601 | The whole sequential text is a run of its own process, so every theorem about interleavings applies to it; its answer is durable exactly when lease, publication, transaction, read-back and rendering succeed, and otherwise the refusal of the stage that failed |
| DebtPolicy.EvaluateEffect | apps/orchestrator/src/architecture-debt-policy.ts:208-260 | Whatever the operation, an accepted action was admitted by the state, leads to the state, moves version n to n+1, keeps identity, sets exactly the fields of its own operation and leaves every other one, and its event names this actor, step and target; admitting and resulting states are listed operation by operation |
| DebtOutcomes.AcceptedIff | apps/orchestrator/src/architecture-debt-policy.ts:188-260 | An action is accepted exactly when every test passes, with keys, states and targets spelled out for each operation, and otherwise refused with the code of the first test that fails |
| DebtOutcomes.EveryTriageLeads | apps/orchestrator/src/architecture-debt-policy.ts:192-206 | After any run, every triage row of a record started from a state that admits its operation and left the state it leads to: DEFER to DEFERRED, ACCEPT_RISK to ACCEPTED_RISK, and so on |
| DebtOutcomes.StateIsLastDecision | apps/orchestrator/src/architecture-debt-policy.ts:203-206 | After any run, a record is in the state of its last triage besides reassignments, or pending when there was none |
| DebtPolicy.EffectKeepsPointers | apps/orchestrator/src/architecture-debt-policy.ts:192-242 | MERGED exactly when the duplicate pointer is set, SUPERSEDED exactly when the superseding pointer is, kept by every accepted action |
| DebtPolicy.OpenTargetImpliesNoCycle | apps/orchestrator/src/architecture-debt-policy.ts:177-178 | The one-step cycle test is implied by the open-target test |
| DebtPolicy.ServiceKeysAgreeIff | apps/orchestrator/src/governance-action-service.ts:48-56 | The keys the confirmed-action service sends are the keys the policy demands exactly for operations other than MERGE and SUPERSEDE |
| DebtPolicy.ServiceNeverMerges | apps/orchestrator/src/governance-action-service.ts:149-157 | Hence a MERGE or SUPERSEDE sent through that service is always refused |
| DebtRegister.RunFromInit | apps/orchestrator/src/architecture-debt-policy.ts:208-260 | From records never merged or superseded, every run of commands keeps records consistent, the pointer targets present, and the retirement order |
| DebtRegister.PointersAcyclic | apps/orchestrator/src/architecture-debt-policy.ts:177-178 | After any run, following pointers from a record any positive number of times never comes back to it |
| DebtRegister.PointersResolve | apps/orchestrator/src/architecture-debt-policy.ts:234-242 | After any run, following pointers reaches a record that is neither MERGED nor SUPERSEDED within the number of records |
| DebtRegister.RecordsStayConsistent | packages/db/src/architecture-debt-store.ts:173-200 | After any run, event rows are numbered without gaps, the last one carries the current state, every triage row is a transition the table allows, and the whole reconstruction succeeds: root, event rows and ordered observations are read back as exactly this record, with its discovery first |
| DebtCommands.CreateIff | packages/db/src/architecture-debt-store.ts:129-151 | A record is created, with its root, first row and discovery, exactly when its id is free, it awaits triage at version 0 without pointers, and it is read back; otherwise nothing changes |
| DebtCommands.LinkIff | packages/db/src/architecture-debt-store.ts:129-151 | An observation is linked, last in its list and with a row of the next version and the same state, exactly when its tests pass, its record is there at the expected version, its content and artifact are new and the record is read back; otherwise nothing changes |
| DebtCommands.TriageIff | apps/orchestrator/src/architecture-debt-integration.ts:92-99 | A triage is recorded with its whole payload exactly when the policy accepts the action, given the record of its project under the target id for a merge or supersession, and the record is read back; otherwise nothing changes |
| DebtRows.FirstIsLeast | packages/db/src/architecture-debt-store.ts:203 | The observation read first has no other before it by link time, as text, and then by hash |
| DebtReading.ReadBackIff | packages/db/src/architecture-debt-store.ts:173-203 | Root, event rows and observations are read back as a given record exactly when rows are numbered from the creation on, links leave the state and triages carry it with their identity, version, limits and number of observations, the record is the last payload with its version moved by later links, there is one link row for each observation but the first, names do not repeat, and the discovery is the earliest observation |
| DebtRows.LinkReconstructsIff | packages/db/src/architecture-debt-store.ts:173-200 | With a link row and an observation of new content added, a readable record is read back exactly when no triage was recorded, fewer than 128 observations were there, and the new one is not read first; it is then the same record one version on |
| DebtRegister.LinkCommitsIff | packages/db/src/architecture-debt-store.ts:97-200 | After any run, an observation is linked exactly when it and its time are valid, its record is there at the expected version, its content and its artifact id with path are new to the record, fewer than 128 are linked, it does not sort before the discovery, and no triage was ever recorded |
| DebtLinks.OneTooMany | packages/db/src/architecture-debt-store.ts:57-59 | A run that links 128 observations and triages nothing, after which a further one that passes every other test is rolled back; `DebtLinks.LetteredNumber` gives such observations |
| DebtLinks.LaterLinkSortsFirst | packages/db/src/architecture-debt-store.ts:180-203 | An observation linked half a second after the record was created, the time of creation being written without a fraction, is rolled back |
| DebtLinks.SameArtifactRefused | packages/db/src/architecture-debt-store.ts:97 | New content under the artifact id and path of the discovery is rolled back |
| DebtRegister.CycleTestIsImplied | apps/orchestrator/src/architecture-debt-policy.ts:236-238 | In every reachable register the cycle test refuses nothing that the open-target test admits |
| DebtRegister.TerminalStaysPut | apps/orchestrator/src/architecture-debt-policy.ts:192-202 | A closed, rejected, merged or superseded record is never changed by a later triage |
| DebtRegister.Store.RecordTriage | apps/orchestrator/src/architecture-debt-integration.ts:92-99 | The transaction: the register afterwards is the one-command run, or untouched when anything refuses or the read-back fails |
| DebtRace.PromptIsAtomic | apps/orchestrator/src/architecture-debt-integration.ts:92-99 | A triage committed on the register it was evaluated on is the atomic command |
| DebtRace.InterleavedAcyclicIff | packages/db/src/architecture-debt-store.ts:136-151 | When several processes evaluate on registers they read earlier and only the acting version is checked at the commit, pointers stay acyclic throughout exactly when no merge or supersede is committed into a record whose pointers, by then, lead back to its own; `DebtRace.InterleavingExists` gives such a run for every schedule |
| DebtRace.OpenTargetClosesNothing | apps/orchestrator/src/architecture-debt-policy.ts:177-178 | Testing at the commit that the target is still open would be enough |
| DebtRace.CrossedMergesCycle | packages/db/src/architecture-debt-store.ts:139-147 | Two processes that read the same register and merge two records into each other both commit, and the pointers form a cycle |
| DebtCrossing.FreshPairCycles | packages/db/src/architecture-debt-store.ts:139-147 | That happens: after creating any two records of one project, each can be merged into the other by a process of its own, and the pointers come back after two steps; `DebtCrossing.FreshPairExists` gives such records |
| TouchSelectors.OverlapIff | apps/orchestrator/src/architecture-debt-policy.ts:275 | Two paths overlap exactly when the segment list of one is a prefix of the segment list of the other, for all strings |
| TouchSelectors.SelectorsFor | apps/orchestrator/src/architecture-debt-policy.ts:276-287 | The push loops followed by de-duplication and sorting compute the record's selector list |
| TouchSelectors.SelectedIff | apps/orchestrator/src/architecture-debt-policy.ts:276-287 | The selector list is non-empty exactly when the plan touches a location or the trigger of the record |
| TouchOutcomes.SelectorIff | apps/orchestrator/src/architecture-debt-policy.ts:276-287 | The selectors of a record are exactly the names of what the plan touches in it - paths by common leading segments, symbols on such paths, tags - each once, in code-unit order |
| TouchSelectors.LocationOrderIgnored | apps/orchestrator/src/architecture-debt-policy.ts:276-287 | The selector list does not depend on the order of the locations |
| FutureTouch.JudgeIff | apps/orchestrator/src/architecture-debt-policy.ts:320-329 | A touched record is decided exactly when one decision alone is bound to its version, the plan, feature and project, and it is the actor's and names exactly its selectors; then the match carries that decision |
| TouchInput.ValidTouchPlan | apps/orchestrator/src/architecture-debt-policy.ts:262-274 | The plan check with its loop over symbols: clean texts, list limits, strictly increasing lists and symbol pairs, not everything empty |
| FutureTouch.EvaluateFutureTouch | apps/orchestrator/src/architecture-debt-policy.ts:310-331 | The whole evaluation with its early returns and its loop over records, against the specification function |
| TouchOutcomes.OutcomeIff | apps/orchestrator/src/architecture-debt-policy.ts:310-331 | Each answer exactly: invalid input, a foreign or repeated open record, a touched open record without its one decision, or acceptance, in this order |
| TouchOutcomes.MatchIff | apps/orchestrator/src/architecture-debt-policy.ts:318-330 | An accepted plan is answered with one match for each touched open record: its id, version, selectors and decision |
| TouchOutcomes.MatchesIncrease | apps/orchestrator/src/architecture-debt-policy.ts:318-330 | Matches come in increasing record id |
| FutureTouch.AcceptsIff | apps/orchestrator/src/architecture-debt-policy.ts:310-331 | Accepted exactly when plan, records, decisions and actor are valid, open records are of one project and not repeated, and each open record with selectors has one decision, bound to version, plan hash, feature and project, by the actor, for exactly its selector list |
| FutureTouch.DecidableIff | apps/orchestrator/src/architecture-debt-policy.ts:289-331 | Some decisions make a plan acceptable exactly when the rest of the input is valid and of one project and every touched record has at most 128 selectors, all clean texts |
| TouchInput.CrowdedRecord | apps/orchestrator/src/architecture-debt-policy.ts:276-292 | A valid record with 128 locations on planned paths and a planned trigger path has a selector too many for any decision |
| FutureTouch.MatchesExactly | apps/orchestrator/src/architecture-debt-policy.ts:318-330 | The matches are exactly the decided open records with their versions, selector lists and decisions |
| FutureTouch.OrderIgnored | apps/orchestrator/src/architecture-debt-policy.ts:310-331 | The outcome, matches included, is the same for every order of records and of decisions |
| PhaseStatuses.ExplanationIsIgnored | apps/orchestrator/src/phase-state-reconciliation-policy.ts:52-65 | A status keeps its meaning in any case, with white space or hyphens for underscores, with white space before it, and with any explanation after white space, a hyphen or an underscore |
| PhaseStatuses.TokenReadIff | apps/orchestrator/src/phase-state-reconciliation-policy.ts:59-60 | A trimmed status is led by a canonical token exactly when it is a spelling of it, alone or followed by such an explanation |
| Spelling.SpaceIff | apps/orchestrator/src/phase-state-reconciliation-policy.ts:59-60 | White space, code point by code point, as trim and the patterns take it |
| PhasePolicy.CurrentPhase | apps/orchestrator/src/phase-state-reconciliation-policy.ts:71-110 | Any decision but a block or all-terminal is about the earliest unfinished phase |
| PhasePolicy.PromoteSound | apps/orchestrator/src/phase-state-reconciliation-policy.ts:157-231 | Only the earliest unfinished phase is promoted, with every task checked, changed_files, tests, gherkin_e2e and code_review each last recorded as satisfied, not applicable or waived with a justification that is not blank, and no review outstanding |
| PhaseDecisions.PromotedIff | apps/orchestrator/src/phase-state-reconciliation-policy.ts:50-231 | A phase is promoted exactly when nothing obstructs the list and it is the earliest unfinished one, its work has begun, its statuses agree, its ledger has tasks begun in order, every task is checked, no review is outstanding and the four gates, by name, are settled with a justification |
| PhaseDecisions.SelectedIff | apps/orchestrator/src/phase-state-reconciliation-policy.ts:157-215 | A task is selected exactly when it is the next unchecked one of the earliest unfinished phase with nothing later started, or when that phase is fully checked and awaits its review |
| PhaseDecisions.InitializedIff | apps/orchestrator/src/phase-state-reconciliation-policy.ts:110-135 | A phase is initialized exactly when it is the earliest unfinished one, has no ledger, and its statuses let it begin |
| PhaseDecisions.FinishedIff | apps/orchestrator/src/phase-state-reconciliation-policy.ts:74-105 | All-terminal is answered exactly when nothing obstructs the list and every phase is finished |
| PhasePolicy.SelectSound | apps/orchestrator/src/phase-state-reconciliation-policy.ts:157-215 | The selected task is the first unchecked one by index with nothing later started, or the last one of a fully checked phase awaiting review |
| PhasePolicy.InitializeSound | apps/orchestrator/src/phase-state-reconciliation-policy.ts:110-135 | Initialization is offered only where there is no ledger and both statuses are active |
| PhasePolicy.AllTerminalIff | apps/orchestrator/src/phase-state-reconciliation-policy.ts:74-105 | All-terminal is said exactly when numbers are distinct, every phase is terminal and none hides unfinished work |
| PhaseInvariance.ListingOrderIgnored | apps/orchestrator/src/phase-state-reconciliation-policy.ts:74-157 | The decision is the same for every order in which phases and tasks with distinct numbers and indexes are listed |
| PhaseInvariance.InterruptedPromotionRepeats | apps/orchestrator/src/phase-state-reconciliation-policy.ts:157-231 | A promotion interrupted after any task-run writes is decided again identically |
| PhaseRun.RoundKeepsGood | apps/orchestrator/src/phase-state-reconciliation-policy.ts:71-231 | A round of reconciling and acting, worker or review, keeps checked tasks a prefix by index in every unfinished phase |
| PhaseRun.RoundLowersMeasure | apps/orchestrator/src/phase-state-reconciliation-policy.ts:71-231 | Every round that is not a stop goes down lexicographically: an initialization lowers the number of missing ledgers; any other round keeps it and lowers unchecked tasks plus unfinished phases, or keeps those and settles a review |
| PhaseRun.RunsStop | apps/orchestrator/src/phase-state-reconciliation-policy.ts:71-231 | When no ledger is missing, every run stops within two rounds per unchecked task and unfinished phase and one per awaited review |
| PhaseRun.RunsStopEventually | apps/orchestrator/src/phase-state-reconciliation-policy.ts:71-231 | Every run stops, whatever ledgers workers create, reviews in between included |
| PhaseDecisions.BlocksIff | apps/orchestrator/src/phase-state-reconciliation-policy.ts:71-231 | The engine blocks exactly when a phase number repeats, a finished phase has unchecked tasks, or the earliest unfinished phase meets no condition of promotion, selection or initialization, its gates by name |
| PhaseLiveness.RunsFinish | apps/orchestrator/src/phase-state-reconciliation-policy.ts:71-231 | When rounds bring settled gates, an active status table and ledgers nobody has started, every run from phases that are ready for it ends in all-terminal, with every phase finished and no work hidden |
| PhaseLiveness.RunsFinishWithin | apps/orchestrator/src/phase-state-reconciliation-policy.ts:71-231 | With every ledger there, that takes at most two rounds per unchecked task and unfinished phase and one per awaited review |
| PhaseRun.PromotionsIncrease | apps/orchestrator/src/phase-state-reconciliation-policy.ts:157-231 | Of two promotions in a run the later one is of a phase with a larger number, whatever happens in between |
| PhaseRun.RoundsKeepTerminal | apps/orchestrator/src/phase-state-reconciliation-policy.ts:71-231 | A terminal phase stays terminal for the rest of the run |
| PhaseWorker.ContinueIsFresh | apps/orchestrator/src/phase-worker-result-policy.ts:62-127 | A continue result dispatches the first unchecked task of the earliest unfinished phase, never a checked one |
| PhaseWorker.AnswerIff | apps/orchestrator/src/phase-worker-result-policy.ts:62-127 | Which facts give phase-completed, which continue with the selected task, and which fail-closed |
| PhaseAdapter.Disk.Collect | apps/orchestrator/src/phase-state-reconciliation-adapter.ts:80-128 | Collecting facts either changes nothing and returns the facts of every document, or resets exactly the first stale mirror |
| PhaseAdapter.Disk.WritePromotion | apps/orchestrator/src/phase-state-reconciliation-adapter.ts:150-197 | All writes of a promotion, in the source's order, and nothing else |
| PhaseAdapter.Disk.Reconcile | apps/orchestrator/src/phase-state-reconciliation-adapter.ts:73-197 | One reconciliation of the disk: the policy's decision on healthy mirrors, or one reset |
| PhaseAdapter.HealingLowersStaleCount | apps/orchestrator/src/phase-state-reconciliation-adapter.ts:95-128 | A reset removes a stale mirror and adds none, so resets cannot go on for ever |
| PhaseAdapter.ConflictBlockUnreachable | apps/orchestrator/src/phase-state-reconciliation-adapter.ts:95-128 | Once nothing is stale the policy's document and store conflict block is never reached |
| PhaseAdapter.InterruptedWritesRepeat | apps/orchestrator/src/phase-state-reconciliation-adapter.ts:150-158 | Stopped after any number of task-run writes, the same promotion is decided again |
| PhaseCrash.PromotionRepeatsIff | apps/orchestrator/src/phase-state-reconciliation-adapter.ts:150-197 | A promotion stopped after n of its writes is decided again, the same, exactly when it stopped before the document was written; after that no decision is about the phase |
| PhaseCrash.LostRow | apps/orchestrator/src/phase-state-reconciliation-adapter.ts:181-197 | Stopped between the document and the row, no later reconciliation ever repairs the row: it says what it said before, as long as nobody else edits it and the document stays finished |
| PhaseCrash.RowIsLost | apps/orchestrator/src/phase-state-reconciliation-adapter.ts:181-197 | A disk on which that happens: the document says COMPLETED, the row IN_PROGRESS, and the next decision is that everything is finished |
| OrderedTasks.SettledIsPrefix | apps/orchestrator/src/ordered-phase-task-policy.ts:63-73 | After any events whatever, settled tasks are a prefix of the declared queue and nothing after the selected task was touched |
| OrderedTasks.CompletedIff | apps/orchestrator/src/ordered-phase-task-policy.ts:63-99 | A task is completed exactly when it was at some moment the selected task and reported an outcome that completes its executor, and skipped exactly when it was deferred while selected |
| OrderedTasks.StateIff | apps/orchestrator/src/ordered-phase-task-policy.ts:63-99 | After any events, a task is in the state that the last event that found it selected left it in - completed, in progress, blocked or skipped, outcome by outcome - or not started |
| OrderedTasks.TransitionIff | apps/orchestrator/src/ordered-phase-task-policy.ts:75-99 | What follows each outcome under each executor: which completes, which blocks, and which worker repairs the rest |
| OrderedTasks.PhaseCompleteIff | apps/orchestrator/src/ordered-phase-task-policy.ts:63-73 | phase_complete is selected exactly when every declared task was settled while it was the selected one |
| OrderedTasks.SettledInOrder | apps/orchestrator/src/ordered-phase-task-policy.ts:63-99 | Tasks are settled one after the other in declared order |
| OrderedTasks.BlockedIsFinal | apps/orchestrator/src/ordered-phase-task-policy.ts:67-68 | A blocked task stops the queue for good |
| PhaseContract.CheckTasks | apps/orchestrator/src/phase-execution-contract.ts:203-248 | The inner loop reports nothing exactly when every task is well formed for the version and no two share an id, and then projects every task in order |
| PhaseContract.CheckPhases | apps/orchestrator/src/phase-execution-contract.ts:154-269 | The outer loop reports nothing exactly when every phase is well formed and ids, orders and documents are pairwise different, and then drops no phase |
| PhaseContract.ParsePhaseExecutionContract | apps/orchestrator/src/phase-execution-contract.ts:125-281 | A contract comes out exactly for acceptable input: then phase i has order i and a document numbered i, every input phase stands whole at its own order, and ids, documents and the task ids of each phase are unique |
| ContractRules.AcceptedIff | apps/orchestrator/src/phase-execution-contract.ts:122-281 | A contract is accepted exactly under rules written out for phases and tasks: kinds by version, conditions, profiles, ids, orders, documents numbered as ordered, one final validation |
| ContractRules.CarriedIsBecome | apps/orchestrator/src/phase-execution-contract.ts:122-281 | Phase i of an accepted contract is what the entry of order i says, field by field and task by task |
| PhaseNumbers.DocumentNumberIff | apps/orchestrator/src/phase-execution-contract.ts:101-107 | A document path names phase n exactly when, with slashes of either kind, it is phases/phase-, the digits of n, and an ending of the listed forms, in any case |
| PhaseContract.ContiguousIff | apps/orchestrator/src/phase-execution-contract.ts:271-274 | Distinct orders from zero up are contiguous once sorted exactly when none is too large |
| PhaseContract.DocumentTestIsImplied | apps/orchestrator/src/phase-execution-contract.ts:172-186 | The test for repeated documents is implied by the tests on orders and document numbers |
| PhaseQueue.OrderPermutesIff | apps/orchestrator/src/phase-execution-contract.ts:299-322 | Ordering by the contract puts at position i the document the contract names there, and permutes the scanned phases exactly when their documents are distinct |
| PhaseQueue.QueueIdsDistinct | apps/orchestrator/src/phase-execution-contract.ts:381-394 | Unique task ids in the contract give a queue with unique ids |
| PhaseQueue.QueueFollowsContract | apps/orchestrator/src/phase-execution-contract.ts:381-394 | The queue is the subsequence, in contract order, of the tasks that are no reviews or whose review applies: an increasing index map hits exactly those, each with its id, executor and required flag |
| PhaseQueue.ContractTasksSettleInOrder | apps/orchestrator/src/phase-execution-contract.ts:381-394 | After any events the settled tasks are a prefix of the admitted contract tasks; what is selected or blocked is the first one not settled, and the phase is complete exactly when all are |
| PhaseQueue.ReviewRequiredIff | apps/orchestrator/src/phase-execution-contract.ts:339-350 | A phase must be reviewed exactly as its first required review task says; without one only a phase of the old kinds may need a review, by its policy and when production code changed |
| PhaseQueue.OrderIff | apps/orchestrator/src/phase-execution-contract.ts:299-322 | Ordering succeeds exactly when contract and scan name the same documents, and puts the last scanned phase of each document in its place |
| PhaseQueue.ReviewedBeforeComplete | apps/orchestrator/src/phase-execution-contract.ts:339-350 | A phase that requires a review cannot run out of tasks before a required review task was approved, or deferred, while selected; success of the fixer never completes it |
| PhaseQueue.NoUnwantedReview | apps/orchestrator/src/phase-execution-contract.ts:381-394 | A review enters the queue only under its condition |
| PhaseLedger.ValidateLedgerParity | apps/orchestrator/src/phase-execution-contract.ts:419-469 | The parity test on the lines of a document: an empty report exactly when there is a ledger heading, every checkbox of its section is marked, the ids are the declared ones in order, and executors agree where they are required; otherwise exactly the problems there are |
| LedgerRules.ParityIff | apps/orchestrator/src/phase-execution-contract.ts:419-469 | The report is empty exactly when a ledger title stands in the document and the checkboxes of its section, none left out and in order, begin with [contract:id] of the phase's tasks, and with [executor:name] where the phase is ordered |
| PhaseLedger.ParityNamesExecutors | apps/orchestrator/src/phase-execution-contract.ts:454-466 | After an empty report of an ordered phase, ledger item i carries task i's id and its executor |
| PhaseLedger.ExtractPhaseTaskLedger | apps/orchestrator/src/workflows/phases/phase-task-ledger.ts:16-64 | The extractor's loop with its section, ledger and level variables, against the specification function |
| LedgerItems.ExtractedIs | apps/orchestrator/src/workflows/phases/phase-task-ledger.ts:16-64 | The items are exactly the checkboxes, in document order, that stand where a ledger is open, or anywhere in a document without one, each with its section, state and kept text |
| LedgerGrammar.HeadingIff | apps/orchestrator/src/workflows/phases/phase-task-ledger.ts:20-31 | What is a heading, character by character, and the title it shows |
| LedgerGrammar.CheckboxIff | apps/orchestrator/src/workflows/phases/phase-task-ledger.ts:44-52 | What is a checkbox, character by character, with its state and shown text |
| LedgerGrammar.CleanShows | apps/orchestrator/src/workflows/phases/phase-task-ledger.ts:126-128 | Cleaning shows the words of a line: no backticks or asterisks, and one space for any run of blanks and underscores between two words |
| PhaseLedger.ReadPhaseTaskLedgerItems | apps/orchestrator/src/workflows/phases/phase-task-document-repository.ts:17-36 | The two readers composed: all items without an ordered contract, the parity error, or the projection |
| LedgerRules.QueueFollows | apps/orchestrator/src/ordered-phase-task-policy.ts:43-60 | The queue holds, in contract order, for the tasks that some checkbox under a ledger heading asks for, the last checkbox that does, with its state and kept text |
| PhaseLedger.ProjectionIsLedgerIff | apps/orchestrator/src/ordered-phase-task-policy.ts:43-60 | After an empty parity report the projection holds the ledger's items once each, in document order, exactly when every item is governed by a ledger heading with only deeper untitled headings between, its marker is not cut off by the text limit, and no later checkbox under a ledger heading has its task id |
| PhaseLedger.OnlyLedgerSelected | apps/orchestrator/src/ordered-phase-task-policy.ts:39-60 | Only checkboxes under a ledger heading become work, and only for declared tasks |
| LedgerLines.MarkerFoundIff | apps/orchestrator/src/workflows/phases/phase-task-ledger.ts:44-46 | The extractor's reader finds the task id that the parity test reads exactly when its marker lies within the 240 characters that are kept |
| LedgerGaps.SubheadingHidesItem | apps/orchestrator/src/workflows/phases/phase-task-ledger.ts:31-42 | A document that passes the parity test and whose queue is empty: the item stands under a titled heading inside the section |
| LedgerGaps.SecondLedgerWins | apps/orchestrator/src/ordered-phase-task-policy.ts:49-59 | A document that passes the parity test and whose queue is the item of a second ledger, checked already |
| LedgerGaps.StartedBoxWins | apps/orchestrator/src/workflows/phases/phase-task-ledger.ts:44-52 | A document that passes the parity test and whose queue is a checkbox under way that the test does not read |
| CanonicalJsonReading.QuoteRoundTrip | apps/orchestrator/src/governance-parity-service.ts:24 | String quoting loses nothing, lone surrogates included: the reader gives the string back |
| CanonicalJsonText.QuotePieces | apps/orchestrator/src/governance-parity-service.ts:24 | A quoted string is made of one piece for each unit or surrogate pair: a backslash pair exactly for quote, backslash and the five short controls, four lower-case hexadecimal digits exactly for the other controls and lone surrogates, anything else as it is |
| CanonicalJsonText.PlainUnchanged | apps/orchestrator/src/architecture-debt-touch-plan.ts:74-83 | A string that needs no escape, slashes included, is printed unchanged between quotation marks |
| CanonicalJsonText.CanonicalIsText | apps/orchestrator/src/governance-parity-service.ts:23-29 | What is printed belongs to a grammar with the literals and the punctuation of JSON written out, members in code-unit order of their keys |
| CanonicalJsonReading.ParsePrint | apps/orchestrator/src/architecture-debt-touch-plan.ts:74-83 | A parser undoes the printer on every valid value, whatever text follows |
| CanonicalJsonForms.CanonicalPrintsNormal | apps/orchestrator/src/governance-parity-service.ts:23-29 | The canonical text is the printed form of the value with members in key order |
| CanonicalJsonLaws.ParseCanonical | apps/orchestrator/src/governance-parity-service.ts:23-29 | Parsing canonical text gives the value back up to key order |
| CanonicalJsonLaws.CanonicalInjective | apps/orchestrator/src/governance-parity-service.ts:23-29 | Two values have equal canonical text exactly when they are equal up to object key order |
| CanonicalJsonLaws.CanonicalRefusesIff | apps/orchestrator/src/governance-parity-service.ts:23-29 | The printer refuses exactly values that hold something JSON cannot |
| CanonicalJsonLaws.ActionRefusesIff | apps/orchestrator/src/governance-action-service.ts:32-45 | The printer of the action digest refuses exactly values that hold something that is not JSON or a surrogate unit in a string |
| CanonicalJsonLaws.CanonicalIsFixed | apps/orchestrator/src/architecture-debt-touch-plan.ts:74-83 | Printing what canonical text parses to gives the same text again |
| CanonicalJsonLaws.ActionAgrees | apps/orchestrator/src/governance-action-service.ts:32-45 | The printer of the action digest agrees with the parity printer wherever both print |
| CanonicalJsonLaws.ActionTextBindsIntent | apps/orchestrator/src/governance-action-service.ts:45 | Equal digest input means equal requests up to key order |
| ParityProjection.ProjectionIgnoresOrder | apps/orchestrator/src/governance-parity-service.ts:38-72 | Dashboards that differ only in the order of uniquely keyed collections and of string lists have the same canonical projection |
| ParityProjection.ProjectionIdempotent | apps/orchestrator/src/governance-parity-service.ts:38-72 | Projecting a projection changes nothing, with or without unique keys |
| ParityRules.ProjectionIs | apps/orchestrator/src/governance-parity-service.ts:38-72 | The projection puts every list in the order of its named fields, string lists in code-unit order, and changes nothing else |
| ParityProjection.SourceIgnoresOrder | apps/orchestrator/src/governance-parity-service.ts:73-80 | The text hashed as the source version is the same for such dashboards |
| ParityRules.SourceIs | apps/orchestrator/src/governance-parity-service.ts:73-80 | The source version is one line for each review, replan and debt record, its words and fields between colons, in code-unit order |
| ParityRules.UnitsRead | apps/orchestrator/src/governance-parity-service.ts:73-80 | The code units of a plain text are its characters |
| QueueOrder.QueueFor | apps/orchestrator/src/governance-read-service.ts:140-151 | The push loops and the final sort with the read service's comparator, against the sorted list of items |
| ParityRules.QueueIs | apps/orchestrator/src/governance-read-service.ts:140-151 | The queue holds exactly one item for each finding, replan and debt record, with its id, kind, urgency and actions, those that require action first, then by urgency, kind and id |
| QueueOrder.ComparatorsAgree | apps/orchestrator/src/governance-parity-service.ts:67-69 | The comparators of the read service and of the parity service, each with its own tables, agree on any two items |
| QueueOrder.QueueIsCanonical | apps/orchestrator/src/governance-parity-service.ts:67-69 | The queue the read service builds is in the parity service's order already: projecting moves none of its items, and none is lost or added |
| QueueOrder.QueueOrdered | apps/orchestrator/src/governance-read-service.ts:148-151 | No item that requires action stands after one that does not, and within each group urgency never falls |
| DeliveryTable.FindSectionStart | apps/orchestrator/src/delivery-policy.ts:514-531 | The counting loop: the first delivery heading, none, or the duplicate error |
| DeliveryTable.FindSectionEnd | apps/orchestrator/src/delivery-policy.ts:533-556 | The scan for the next heading or the last table row |
| DeliveryTable.ParseDeliveryTable | apps/orchestrator/src/delivery-policy.ts:573-624 | The row loop, in which a later row of a field wins |
| DeliveryRules.TableReadIff | apps/orchestrator/src/delivery-policy.ts:514-571 | The table is that of the one section there is, of none when there is none, and an error when there are several |
| DeliveryRules.LineIs | apps/orchestrator/src/delivery-policy.ts:514-571 | Which trimmed lines are the delivery heading, a second-level heading, or a table row |
| DeliveryRules.DefaultWithout | apps/orchestrator/src/delivery-policy.ts:626-636 | A document without the section has the default configuration, value by value |
| DeliveryRules.EntryIff | apps/orchestrator/src/delivery-policy.ts:573-624 | A row sets a field exactly when, between pipes, without dashes and not the head row, its first two parts that are not blank are one of the field's names and the value |
| DeliveryRules.LastRowWins | apps/orchestrator/src/delivery-policy.ts:573-624 | A field has the value of its last row, read by its kind |
| DeliveryRules.DefaultStays | apps/orchestrator/src/delivery-policy.ts:573-636 | A field that no row sets has its default |
| DeliveryRules.StatusReadIff | apps/orchestrator/src/delivery-policy.ts:431-445 | Which words, in any case and with white space around, are read as which status |
| DeliveryRules.ModeReadIff | apps/orchestrator/src/delivery-policy.ts:638-644 | Which words are read as which mode; anything else is refused |
| DeliveryRules.RoleReadIff | apps/orchestrator/src/delivery-policy.ts:654-660 | Which words are read as which issue role |
| DeliveryRules.UpdateReadIff | apps/orchestrator/src/delivery-policy.ts:662-668 | Which words are read as which update mode |
| DeliveryRules.NumberReadIff | apps/orchestrator/src/delivery-policy.ts:646-652 | A number is read exactly from decimal digits, a hash before them or not, and white space around |
| DeliveryTable.EndsAtHeading | apps/orchestrator/src/delivery-policy.ts:537-543 | The section ends at the next second-level heading when there is one |
| DeliveryTable.ReadsRendered | apps/orchestrator/src/delivery-policy.ts:105-125 | In any surroundings without another delivery heading, a rendered section reads as the table it was rendered from |
| DeliveryRows.RowReads | apps/orchestrator/src/delivery-policy.ts:134-152 | A rendered row reads as its field and value |
| DeliveryRules.SectionWritten | apps/orchestrator/src/delivery-policy.ts:134-152 | The lines of a rendered section, word for word, with its numbers in decimal |
| DeliveryValues.NumberReads | apps/orchestrator/src/delivery-policy.ts:143-146 | A rendered number reads back when positive and as null otherwise |
| DeliveryDocument.UpdateOkIff | apps/orchestrator/src/delivery-policy.ts:162-181 | The update is refused exactly when there is more than one delivery heading |
| DeliveryDocument.RoundTrip | apps/orchestrator/src/delivery-policy.ts:105-181 | Parsing an updated document gives the configuration back with non-positive numbers set to null, for every branch the table can carry |
| DeliveryDocument.RoundTripIff | apps/orchestrator/src/delivery-policy.ts:105-181 | With at most one delivery heading, the configuration survives exactly when its branch is trimmed, non-empty, on one line, without pipe, three dashes or both table words, and its numbers are null or positive |
| DeliveryDocument.SurroundingsStay | apps/orchestrator/src/delivery-policy.ts:173-180 | Lines before the heading and from the next second-level heading on are joined around the new section untouched |
| DeliveryDocument.ParsedBranchIsGood | apps/orchestrator/src/delivery-policy.ts:584-604 | A branch read from any document at all is one that the table can carry |
| DeliveryDocument.UpdatesGrow | apps/orchestrator/src/delivery-policy.ts:134-180 | Updating an updated document adds one blank line before the heading every time |
| InventoryGrid.FindInventoryHeader | apps/orchestrator/src/feature-tasks-phase-status.ts:89-108 | The candidate loop: the first contract header, or else the first header |
| InventoryRules.TableSelected | apps/orchestrator/src/feature-tasks-phase-status.ts:89-108 | The table is the first one headed by document, contract id, role and status, or, without any, the first one headed by phase and status; there is one exactly when some line heads one |
| InventoryRules.LineCellsIff | apps/orchestrator/src/feature-tasks-phase-status.ts:120-122 | The cells of a line are what stands between its pipes, trimmed, and it has any only when it begins with a pipe |
| InventoryRules.GridShows | apps/orchestrator/src/feature-tasks-phase-status.ts:68-122 | The table is searched in exactly the cells of the document, line by line |
| InventoryGrid.ReadInventoryRows | apps/orchestrator/src/feature-tasks-phase-status.ts:68-87 | The row loop below the header, up to the first line that is no table row |
| InventoryRules.InventoryIff | apps/orchestrator/src/feature-tasks-phase-status.ts:68-87 | The rows are exactly the lines of the table block that are no rule, name a phase and have a status, in order |
| InventoryRules.FirstRowRead | apps/orchestrator/src/feature-tasks-phase-status.ts:23-40 | A phase reads as the status of its first row, and as none when no row names it |
| FeatureTasksStatus.ReplaceFeatureTasksPhaseStatus | apps/orchestrator/src/feature-tasks-phase-status.ts:42-56 | Overwriting the cell and the line in place, against the specification function |
| InventoryRules.ReplacedText | apps/orchestrator/src/feature-tasks-phase-status.ts:42-56 | The replaced document is the old one with the status part of the phase's only row overwritten between spaces |
| PhaseNumbers.LegacyNumberIff | apps/orchestrator/src/feature-tasks-phase-status.ts:115-118 | A legacy cell names phase n exactly when it begins with the digits of n followed by the end, a pipe, a dash or a colon |
| PhaseNumbers.ContractCellNumbered | apps/orchestrator/src/feature-tasks-phase-status.ts:110-113 | A path that names a phase is read as that phase with white space around it, in backticks, or behind a dot and a slash |
| FeatureTasksStatus.ReplaceSomeIff | apps/orchestrator/src/feature-tasks-phase-status.ts:47-48 | A status is replaced exactly when the phase has one inventory row |
| FeatureTasksStatus.ReplaceKeepsTableIff | apps/orchestrator/src/feature-tasks-phase-status.ts:42-56 | The same table is still selected exactly when it is of the contract kind or the changed row has not become a contract header |
| InventoryGap.RowTakesOver | apps/orchestrator/src/feature-tasks-phase-status.ts:89-108 | A document on which the table changes: storing the word status in a legacy row that holds the other three header words |
| FeatureTasksStatus.PlainWordKeepsTable | apps/orchestrator/src/feature-tasks-phase-status.ts:89-108 | Any stored status that is not one of the four header words keeps the selected table |
| FeatureTasksStatus.ReplaceThenRead | apps/orchestrator/src/feature-tasks-phase-status.ts:23-56 | With the table kept, the phase reads as the new status and every other phase as before |
| TableCells.ParseMarkdownTableCells | apps/orchestrator/src/manual-test-verification-presentation.ts:476-493 | The character scan with its backslash rule, against the recursive reading of the row |
| TableRules.CellsAre | apps/orchestrator/src/manual-test-verification-presentation.ts:476-493 | A row is split exactly at the pipes that no backslash precedes, whatever its first and last unit are, and the backslashes before pipes go |
| TableCells.CellSurvivesIff | apps/orchestrator/src/manual-test-verification-presentation.ts:706-718 | One cell survives escaping and reading exactly when it is trimmed, free of newlines and within the length limit once escaped |
| TableRules.CellIs | apps/orchestrator/src/manual-test-verification-presentation.ts:706-718 | A cell is written unit by unit: a pipe after a backslash, a newline as a space; of more than 120 units, 119 without trailing white space and an ellipsis |
| TableRules.RowIs | apps/orchestrator/src/manual-test-verification-presentation.ts:87-88 | A row is a pipe, and each cell between spaces with a pipe after it |
| TableCells.RowSurvivesIff | apps/orchestrator/src/manual-test-verification-presentation.ts:347-349 | A rendered row reads back as the same cells exactly when every cell does, whatever backslashes and pipes it holds |
| ShellScan.SplitShellCommandSegments | apps/orchestrator/src/cargo-safety.ts:1-66 | The character loop with quote and escape state, against the specification function |
| ShellQuoting.CutsAreOutside | apps/orchestrator/src/cargo-safety.ts:1-66 | A command is cut exactly at the separators that stand unescaped outside every quotation, taken from the left; which character opens and closes a quotation is said of the command's characters |
| ShellScan.SplitIsLossless | apps/orchestrator/src/cargo-safety.ts:1-66 | Interleaving the segments with the dropped separators rebuilds the command |
| ShellScan.OnlySeparatorsAreDropped | apps/orchestrator/src/cargo-safety.ts:30-60 | What is dropped is always one of the seven separators |
| ShellScan.SegmentsAreWhole | apps/orchestrator/src/cargo-safety.ts:1-66 | No segment can be cut further |
| ShellCargo.SplitIsCompositionalIff | apps/orchestrator/src/cargo-safety.ts:1-66 | Splitting two commands joined by a semicolon is splitting each exactly when the first ends outside quotes and escapes |
| ShellCargo.ExtractExecutable | apps/orchestrator/src/cargo-safety.ts:107-143 | The word loop that looks through assignments, options and wrapper commands |
| ShellWords.TokensAreWords | apps/orchestrator/src/cargo-safety.ts:68-78 | The words of a segment, by its characters: a word ends at white space outside a quotation |
| ShellWords.ExecutableIsProgram | apps/orchestrator/src/cargo-safety.ts:107-151 | The executable is the first word that is no assignment, option or wrapper, each by its characters, and the segment counts when that is cargo or cargo.exe |
| ShellWords.NameFound | apps/orchestrator/src/cargo-safety.ts:80-91 | However a program is written - in a directory, quoted, between brackets, with escaped spaces - its own name is found |
| ShellCargo.WrappersAreTransparent | apps/orchestrator/src/cargo-safety.ts:107-143 | A wrapper with its options, duration and assignments does not change which executable is found |
| ShellCargo.CountCargoInvocations | apps/orchestrator/src/cargo-safety.ts:145-151 | The counting loop, against the count over segments |
| ShellWords.CountIsPositions | apps/orchestrator/src/cargo-safety.ts:145-151 | The count is the number of segments that run Cargo |
| ShellCargo.CargoCountsAdd | apps/orchestrator/src/cargo-safety.ts:145-151 | Cargo counts add over a semicolon when the first command ends outside quotes and escapes |
| VerificationProfile.CheckEntries | apps/orchestrator/src/final-verification-profile-loader.ts:111-260 | The loop over checks: no issue exactly when every check is well formed and ids are distinct, and then every check is declared in order |
| VerificationProfile.LoadProfile | apps/orchestrator/src/final-verification-profile-loader.ts:95-287 | A profile comes out exactly for acceptable input, and then build, test and lint each have a required check |
| VerificationRules.AcceptedIff | apps/orchestrator/src/final-verification-profile-loader.ts:95-287 | A profile is accepted exactly under rules written out check by check: ids, intents by name, commands, directories, timeouts, coverage, and a required check for build, test and lint |
| VerificationRules.DeclaredEntries | apps/orchestrator/src/final-verification-profile-loader.ts:95-287 | The declarations of an accepted profile are its entries, in order |
| VerificationRules.EachIntentRequired | apps/orchestrator/src/final-verification-profile-loader.ts:262-287 | In an accepted profile build, test and lint each have a required check among the declarations |
| VerificationRun.PassedMeans | apps/orchestrator/src/final-verification-adapter.ts:178-264 | passed means exit code zero, no warnings for build and lint, tests that ran, and an accepted coverage report; for every other intent nothing else succeeds |
| VerificationRun.OutcomeIff | apps/orchestrator/src/final-verification-adapter.ts:147-289 | Which execution of a check gives which outcome: timed out, blocked by policy, skipped, zero selection, failed |
| VerificationRun.CoverageOutcomeIff | apps/orchestrator/src/final-verification-adapter.ts:178-264 | A coverage check is judged by its report when its command succeeded, and is unavailable otherwise |
| VerificationRun.RecordedFields | apps/orchestrator/src/final-verification-adapter.ts:147-289 | What is recorded of a check besides its outcome: its identity, and the exit code its process left, if it left one |
| VerificationRun.RunChecks | apps/orchestrator/src/final-verification-adapter.ts:147-289 | The fail-fast loop: results are the checks run from the first on, up to and including the first failed required one |
| VerificationRun.GetBlockedReason | apps/orchestrator/src/final-verification-policy.ts:242-265 | The early-return loop, against the first required result that did not succeed |
| VerificationRun.RunEnds | apps/orchestrator/src/final-verification-policy.ts:171-299 | Either the whole plan ran and no required check failed, or exactly one did, it is the last one run, and it alone is listed and named as the reason |
| VerificationRun.StatusIff | apps/orchestrator/src/final-verification-policy.ts:192-224 | Which last result gives failed, blocked, passed or skipped |
| VerificationRun.SelectsEarly | apps/orchestrator/src/final-verification-policy.ts:32-42 | Before the final checkpoint the selected checks are those not kept for it, in declared order |
| VerificationRun.FinalPassedMeans | apps/orchestrator/src/final-verification-policy.ts:181-224 | At the final checkpoint of an accepted profile, passed means the whole plan ran in order and build, test and lint each have a required check whose outcome is exactly passed |
| VerificationRun.PassedIff | apps/orchestrator/src/final-verification-policy.ts:192-224 | At any checkpoint, passed exactly when some selected check is required and none of the required ones fails |
| Reachability.MarkReachable | scripts/production-module-reachability-policy.ts:151-158 | The stack loop ends, and has marked exactly the modules a dependency path from a root leads to |
| Reachability.AnalyzeReachability | scripts/production-module-reachability-policy.ts:129-166 | The unreachable modules are exactly the listed ones no root reaches |
| Reachability.ResolvedKeepsTargets | scripts/production-module-reachability-policy.ts:136-149 | Dropping unresolved and repeated specifiers keeps every dependency |
| Reachability.ListOrderIgnored | scripts/production-module-reachability-policy.ts:136-149 | Reachability depends only on which dependencies there are, so sorting and de-duplicating lists is harmless |
| Reachability.DeadIff | scripts/production-module-reachability-policy.ts:151-165 | A set of modules is unreachable exactly when it lies in a set without roots that nothing outside imports |
| Reachability.ReachedIsModule | scripts/production-module-reachability-policy.ts:129-166 | Nothing outside the module list is ever reached |
| WorkflowSpec.AssertUniqueNodeIds | apps/orchestrator/src/feature-workflow-spec.ts:522-532 | No error exactly when ids are unique, and otherwise the first repeated id |
| WorkflowSpec.AssertWorkflowDependencies | apps/orchestrator/src/feature-workflow-spec.ts:534-553 | No error exactly when every dependency stands earlier in the file, and otherwise the first offence with its kind |
| WorkflowSpec.AcceptedIsAcyclic | apps/orchestrator/src/feature-workflow-spec.ts:522-553 | No chain of dependencies of an accepted workflow returns to where it started |
| WorkflowSpec.ChainIsShort | apps/orchestrator/src/feature-workflow-spec.ts:522-553 | Dependency chains of an accepted workflow are no longer than the workflow |
| WorkflowRunner.StepIs | apps/orchestrator/src/feature-workflow-spec.ts:272-293 | What one event does: a start adds a call exactly for a known node with its dependencies completed, a report moves only the call it is about and only in its stage, and a node is completed by its operation alone |
| WorkflowRunner.RunKeepsInv | apps/orchestrator/src/feature-workflow-spec.ts:258-295 | Under every interleaving of overlapping calls, started nodes have all dependencies completed and completion marks are in dependency order |
| WorkflowRunner.StartedMeansReady | apps/orchestrator/src/feature-workflow-spec.ts:272-281 | Every call ever started is for a node of the workflow with all its dependencies completed |
| WorkflowRunner.ClosedAfterIff | apps/orchestrator/src/feature-workflow-spec.ts:268-293 | The completed set is closed under dependencies after a run exactly when the ids it was resumed with have their dependencies completed by then |
| WorkflowRunner.CompletionOrder | apps/orchestrator/src/feature-workflow-spec.ts:291-293 | From an empty start, nodes complete after everything they depend on |
| WorkflowRunner.FileOrderNeverFails | apps/orchestrator/src/feature-workflow-spec.ts:272-293 | Running an accepted workflow in file order starts and finishes every node, whatever it resumes from |
| WorkflowRunner.Runner.RunNode | apps/orchestrator/src/feature-workflow-spec.ts:272-293 | A call with nothing interleaved is the run of its three steps, with the answer that goes with it |

## Left out

- SHA-256, SQLite, file identity and process execution: parameters or an arbitrary outcome; the
  ingress assumes no-replace publication and unique, append-only rows of `@hepha/db`.
- The read-back's gate and cycle checks: an arbitrary outcome of the read step.
- Text hygiene (length limits, secret-like patterns, timestamps) and the kind-specific fields of a
  decision: uninterpreted predicates of `DebtPolicy`, `TouchInput` and `DebtRegister`; what was stored
  is taken to pass the same text tests when it is read.
- The digest that makes up a record id, and the discovery and rule fields of a record besides its first
  observation.
- Case mapping is ASCII; characters of `string` are Unicode scalars in the Markdown, shell and debt
  modules, and UTF-16 code units where the source sorts, counts or quotes them.
- TouchOutcomes.MatchesIncrease: records are ordered by code unit where the source asks the locale;
  record ids are hexadecimal digits behind one prefix, which both order alike.
- Numbers in JSON are kept as printed text, so that -0 and 0 coincide; integers elsewhere are
  unbounded, so a digit string beyond the exact range of a double is read exactly.
- PhaseLedger.ExtractPhaseTaskLedger: the derived item ids and task indexes are not kept; the text
  limit counts characters.
- ContractReading.ReadPhase: JSON is given as decoded fields; a phase whose order is no integer is
  diagnosed but not built, which the source's result does not show either.
- OrderedTasks.Run: the caller is taken to store COMPLETED on completion, SKIPPED on deferral,
  IN_PROGRESS on a retry and BLOCKED on a blocker.
- PhaseRun.Round: the worker checks exactly the selected task; a review with all its repairs is one
  round, which leaves the phase in work with the gate evidence it found.
- DebtRace.ApplyLate: creating a record and linking an observation read and write in one transaction,
  as the store does; only triage is evaluated outside it.
- The legacy Hepha Task State migration and the Markdown gate parser of the adapter.
- ParityProjection.Canonical: dashboard fields that no comparator reads are one opaque field, and
  the record keys, the schema marker and the receipt of `recordGovernanceParity` are not modelled.
- VerificationRun.RunCheck: output summaries, durations, coverage report evaluation and persistence
  are outside; a coverage verdict is given with the execution.
- Reachability.AnalyzeReachability: discovering files and resolving specifiers are inputs.
- WorkflowSpec.AssertWorkflowDependencies: YAML decoding, prompt assets and text rendering are outside.
- `hasBackgroundedCargoInvocation`, `selectOrderedPhaseExit`, the inline Markdown renderer, `renderPackMarkdown` layout,
  eligibility and readiness guard chains, labels and reason texts: each adds only easy members.
- HTTP routes, React, prompt builders and the remaining services of the repository.
