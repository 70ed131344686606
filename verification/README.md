# Cargo OS PDS in Dafny

A model of the deterministic core of Cargo OS PDS and proofs about it, over every input, every run and every
interleaving. `dafny verify dfyconfig.toml` checks the whole project.

## What is modelled

- **Evaluation aggregate** (`Evaluation*.dfy`). `Evaluation` gives each operation as a function from a state to the next
  state, the emitted events and the error. `EvaluationObject` is the aggregate as an object, with the loops of the source,
  proved to do what those functions say. Around it: what batches mean (`EvaluationRules`), what every reachable state keeps
  (`EvaluationInvariant`), rebuilding the aggregate from its log (`EvaluationReplay`), numbering of events
  (`EvaluationEvents`), snapshots (`EvaluationSnapshot`), derivation of the result (`EvaluationDecision`), transactional
  mutation (`EvaluationAtomic`), what mixed runs of operations and such mutations change and log (`EvaluationMixed`,
  `EvaluationMixedLog`), when each operation is accepted (`EvaluationAccepts`), what a completed evaluation has recorded
  (`EvaluationCoverage`), and which snapshots can be loaded (`SnapshotAccepts`).
- **Service and store** (`Pds.dfy`, `PdsDecisions.dfy`, `PdsStore.dfy`). Clients load, change a copy and save under the loaded
  version, as separate steps of an interleaved system; what each request does and what stored decisions mean; the memory store
  as an object.
- **Handover safety** (`Responsibility.dfy`, `ResponsibilityAccepts.dfy`, `Safety.dfy`, `Handover.dfy`, `HandoverObjects.dfy`, `HandoverStore.dfy`). Safety
  machines and direct writers over one repository, with a commit in two steps; assignment, repository, service and machine as
  objects; the database that keeps assignments, handover events and the audit ledger together.
- **Decision pipeline** (`Qualification.dfy`, `QualificationBinding.dfy`, `SequenceOperator.dfy`,
  `SequenceAnswers.dfy`, `JsonPointer.dfy`, `Verification.dfy`, `HonestRuns.dfy`). Evidence qualification, the SEQUENCE rule, selection by JSON Pointer, the independent
  re-check, and the live runs it accepts.
- **Outbox** (`Outbox.dfy`, `Lease.dfy`, `LeaseAttempts.dfy`). Records, back-off, the lease protocol of any number of publisher
  calls under any worker names, and what the attempts it leaves behind count.
- **Audit chain and proofs** (`Encoding.dfy`, `Audit.dfy`, `HandoverProof.dfy`). Byte encodings, the hash chain, transfer and
  proof roots.
- **Policy registry** (`PolicyRegistry.dfy`).
- `Prelude`, `Text` and `Sorting` hold what these share.

Conventions. Instants are integers with zero for Go's zero time; where precision matters they count nanoseconds. Identifiers
are naturals with zero for the nil UUID. Strings are sequences of Unicode scalar values. The hash is a parameter; a theorem that needs
it to be free of collisions asks that only of the inputs it is applied to. Aggregate methods that look an outcome up by rule
require the rules of the recorded outcomes to be distinct, which every reachable aggregate satisfies
(`EvaluationInvariant.RunKeepsValid`).

## Properties that turned out to hold only in part

| promise | fails | holds exactly when |
|---|---|---|
| the event log rebuilds the aggregate | `EvaluationReplay.ExceptedReasonsAreLost` | without atomic mutations `EvaluationReplay.LogIsExactUnlessExcepted`: the verdict is not VERIFIED_WITH_EXCEPTION; with them `EvaluationMixedLog.MixedLogIsExactExactly`: besides, no failed mutation left a binding, nor a cancellation reason that a later cancellation has not replaced |
| a failed atomic mutation leaves no trace | `EvaluationAtomic.FailureCanLeaveABinding` | `EvaluationAtomic.FailureIsCompleteExactlyWhen`: no call of it gets through that writes a new binding or a new cancellation reason |
| optimistic saves lose no update | `Pds.HistoryCapturesOverwrite`, `Pds.LeftBindingIsOverwritten` | `Pds.OverwritesExactly`: the work before the first of two saves from one version raised the version, or neither captured history nor held a failed mutation that left a binding or another cancellation reason; `Pds.SavesAreAtomic` for every request the service has |
| a commit happens under a permit in force | `Handover.ExpiredPermitCommits` | `Handover.CommitInForceExactly`: the caller's commit time lies within the permit; in force at verification always, `Handover.CommitsFollowPermits` |
| an honest run passes the independent re-check | `HonestRuns.DescendingPlanIsRefused` | `HonestRuns.HonestRunAcceptedExactly`: the plan ascends and rules give their reasons in normal form |
| a qualification result can be bound | `QualificationBinding.MissingObjectIsRefused`, `QualificationBinding.SharedIdentityIsRefused` | `QualificationBinding.AggregateBindsExactly`: every object is there and no identity repeats |
| a node is selected by its canonical pointer | `JsonPointer.TrailingSpaceIsLost`, for every selector `JsonPointer.NoSelectorReaches` | `JsonPointer.SelectorKeepsExactly`: the last member name does not end in white space |
| SEQUENCE passes when some embedding fits | `SequenceOperator.AnotherEmbeddingMightPass` | `SequenceOperator.PassExactly`: the leftmost embedding fits |
| the retry delay is the capped power | `Outbox.TruncationShows` | `Outbox.DelayIsCappedPower`: the truncating division does not hit its quotient |
| attempts stay within the maximum | `LeaseAttempts.AttemptsCanPassMaximum` | `LeaseAttempts.PassesMaximumExactly`: no lock ran out with attempts used up before a later claim |
| attempts count claims | `LeaseAttempts.SharedNameMisreports` | `LeaseAttempts.AttemptsCountClaimsExactly`: no failure was ever reported on a claim after another claim of the row under the same name; `LeaseAttempts.ApartIsNeverStale` if calls in progress never share a name |
| a committed handover is read back with a valid audit link | `HandoverStore.RoundingUpBreaksLinks` | `HandoverStore.FoundExactly`: the database kept its microsecond, and not as the zero time; `HandoverStore.TruncatingKeepsLinks` for one that rounds down |
| the ledger is a chain of canonical entries | `Audit.FirstMicrosecondBreaks` | `Audit.RunIsChainedExactly`: nothing was recorded within the first microsecond of the zero time |

## Model

| member | source | states |
|---|---|---|
| EvaluationReplay.LogRebuildsAggregate | evaluation/rules_advanced.go:195-528 | for every run from creation, folding the emitted events alone rebuilds the aggregate, checkpoints, rollbacks and history included, up to the reasons an exceptional completion does not publish |
| EvaluationReplay.LogIsExactUnlessExcepted | evaluation/aggregate.go:111-151 | for every run of operations the log rebuilds the aggregate exactly if and only if its verdict is not VERIFIED_WITH_EXCEPTION |
| EvaluationReplay.ExceptedReasonsAreLost | evaluation/aggregate.go:140-149 | a run whose reason codes no reader of the log can recover |
| EvaluationReplay.RunReplays | evaluation/history.go:65-118 | from any valid state, the events a run adds account for everything it changed |
| EvaluationReplay.ApplyReplays | evaluation/aggregate.go:96-201 | the events of one operation take the state before it to the state after it |
| EvaluationInvariant.RunKeepsValid | evaluation/rules.go:27-110 | in every reachable state rules are distinct, outcomes normal and not before the start, timestamps, verdict, bindings, checkpoints and history consistent |
| EvaluationInvariant.ApplyKeepsValid | evaluation/rules_advanced.go:165-542 | every operation, accepted or refused, keeps that invariant |
| EvaluationInvariant.TerminalRunStays | evaluation/aggregate.go:96-201 | after completion, cancellation or expiry no run changes anything but the history |
| EvaluationInvariant.NormalizeEvidenceIsIdempotent | evaluation/evidence.go:91-147 | normalising an evidence binding a second time changes nothing |
| EvaluationSnapshot.SnapshotRoundTrip | evaluation/snapshot.go:36-177 | rebuilding from the snapshot of a valid aggregate succeeds and gives the aggregate back |
| SnapshotAccepts.RehydratesExactly | evaluation/snapshot.go:62-177 | an aggregate is rebuilt exactly from a snapshot whose phase, instants, outcomes, history, bindings and checkpoints are in order, and is then that state |
| EvaluationAtomic.EveryRunRoundTrips | evaluation/snapshot.go:36-177 | the same after any sequence of operations and atomic mutations |
| EvaluationRules.BatchAccepts | evaluation/rules_advanced.go:165-193 | a batch is accepted exactly if each outcome is acceptable alone and no two disagree about a rule |
| EvaluationRules.RecordingAgrees | evaluation/rules_advanced.go:195-252 | atomic recording, batch recording and recording one by one in order of rule give the same outcomes |
| EvaluationRules.BatchIgnoresOrderAndRepeats | evaluation/rules_advanced.go:165-252 | neither the order of a batch nor equal repeats in it make a difference |
| EvaluationRules.BatchesAreAllOrNothing | evaluation/rules_advanced.go:195-373 | a refused batch changes nothing and emits nothing |
| EvaluationRules.RemovalIsAllOrNothing | evaluation/rules_advanced.go:440-504 | a refused removal changes nothing and emits nothing |
| EvaluationRules.ReplaceAtomicIsPointwise | evaluation/rules_advanced.go:300-373 | batch replacement writes each new outcome over that of its rule, in place, and leaves the others |
| EvaluationRules.ReplaceAtomicIgnoresOrderAndRepeats | evaluation/rules_advanced.go:300-373 | neither order nor equal repeats of the replacements matter |
| EvaluationRules.RemoveAtomicIsAFilter | evaluation/rules_advanced.go:440-481 | batch removal keeps exactly the other outcomes, in order |
| EvaluationRules.RemoveIsAFilter | evaluation/rules_advanced.go:375-402 | removing by position is filtering by rule |
| EvaluationRules.OutcomeFrame | evaluation/rules_advanced.go:195-542 | outcome operations write the outcome list and the version, nothing else |
| EvaluationAccepts.AcceptedExactly | evaluation/rules_advanced.go:165-542 | each of the 22 operations, on every aggregate whose rules are distinct, is accepted exactly if its guard on arguments and fields holds |
| EvaluationAccepts.CompletesExactly | evaluation/aggregate.go:111-151 | completion goes through exactly while running, at a time from the start on, with a known verdict, every planned rule recorded, reasons that are codes, and none exactly for VERIFIED; and what it leaves |
| EvaluationAccepts.StartsExactly | evaluation/aggregate.go:96-109 | an evaluation starts exactly from CREATED at a time not before its creation |
| EvaluationAccepts.CancelsExactly | evaluation/aggregate.go:161-176 | it is cancelled exactly while open, for a reason that is not blank |
| EvaluationAccepts.ExpiresExactly | evaluation/aggregate.go:177-201 | it expires exactly while open, not before its creation |
| EvaluationAccepts.RegistersExactly | evaluation/rules.go:86-110 | a rule joins the plan exactly while open, under a name, dated; once |
| EvaluationAccepts.CodesExactly | evaluation/aggregate.go:216-231 | reasons are taken exactly if each canonicalises to a code, and come to just those codes |
| EvaluationAccepts.OutcomeExactly | evaluation/rules_advanced.go:80-102 | an outcome is taken exactly with a rule, a known status, an instant, and reasons exactly unless it passed |
| EvaluationAccepts.RecordsExactly | evaluation/rules.go:27-55 | an outcome is recorded exactly while running, not before the start, within the plan, and if what is recorded of the rule does not differ |
| EvaluationAccepts.RecordsEachExactly | evaluation/rules.go:56-64 | recording one by one gets to the end exactly if recording together is possible, and leaves each new outcome once |
| EvaluationAccepts.RecordsTogetherExactly | evaluation/rules_advanced.go:195-252 | batches are accepted exactly if each outcome can be recorded alone and no two disagree |
| EvaluationAccepts.ReplacesExactly | evaluation/rules_advanced.go:258-294 | an outcome is replaced exactly as a batch of one would, by one recorded, not older and not of the future; a stale one is refused |
| EvaluationAccepts.ReplacesTogetherExactly | evaluation/rules_advanced.go:300-373 | the same for a batch, with each request dated by then and no two that disagree |
| EvaluationAccepts.RemovesExactly | evaluation/rules_advanced.go:375-402 | a rule is removed exactly if it is recorded, and leaves the other outcomes in order |
| EvaluationAccepts.RemovesIfPresentExactly | evaluation/rules_advanced.go:408-420 | without an outcome there is nothing to do in any phase; either way the outcomes of other rules are left |
| EvaluationAccepts.RemovesTogetherExactly | evaluation/rules_advanced.go:440-481 | a batch is removed exactly if every named rule is recorded |
| EvaluationAccepts.RemovesEachIfPresentExactly | evaluation/rules_advanced.go:483-504 | of a batch what is recorded is removed, and only then is a time asked for |
| EvaluationAccepts.ResetsExactly | evaluation/rules_advanced.go:506-542 | outcomes are reset exactly while running, not before the start, and under an expected version exactly at that version |
| EvaluationAccepts.CheckpointsExactly | evaluation/history.go:65-93 | a checkpoint is taken exactly while running, under a new name |
| EvaluationAccepts.RollsBackExactly | evaluation/history.go:95-118 | rolling back goes through exactly to a checkpoint, not before it was taken |
| EvaluationAccepts.RollbackUndoes | evaluation/history.go:65-118 | rolling back restores the outcomes of the moment the checkpoint was taken, whatever was done to them since |
| EvaluationAccepts.CapturesExactly | evaluation/history.go:138-173 | history is captured exactly once per version, in any phase, as it then is |
| EvaluationAccepts.EvidenceExactly | evaluation/evidence.go:91-167 | an evidence binding is taken exactly if its references are in order and distinct and its status agrees with reasons and references |
| EvaluationAccepts.BindsEvidenceExactly | evaluation/evidence.go:52-82 | it is bound exactly while open, before any outcome, for the session, and once |
| EvaluationAccepts.BindsPolicyExactly | evaluation/policy.go:34-79 | a policy is bound exactly while open, before any outcome, with name, version and digest, not before the creation, and once |
| EvaluationCoverage.CompletedIsCovered | evaluation/aggregate.go:111-151 | over every run of operations and atomic mutations a completed evaluation has an outcome for every rule of its plan |
| EvaluationCoverage.PhasesFollowTheTable | evaluation/aggregate.go:96-201 | every operation keeps the phase or moves it along the transition table |
| EvaluationAtomic.FailureRestores | evaluation/history.go:203-288 | after a failed atomic mutation the log and every captured field are as before, for any sequence of operations |
| EvaluationAtomic.FailureIsCompleteExactlyWhen | evaluation/history.go:244-288 | it restores the whole aggregate exactly if no call got through that wrote a binding where there was none or another cancellation reason |
| EvaluationAtomic.RunLeaksExactly | evaluation/history.go:203-214 | over any run the uncaptured fields change exactly if some call leaks; what leaked is never taken back |
| EvaluationAtomic.FailureCanLeaveABinding | evaluation/history.go:203-214 | a failed mutation that leaves a binding behind |
| EvaluationAtomic.SuccessAddsOneEntry | evaluation/history.go:268-288 | a successful mutation that captures no history itself adds exactly one entry, describing its final state |
| EvaluationDecision.VerdictIsWorst | evaluation/rules.go:127-155 | the folded verdict is the worst status present |
| EvaluationDecision.VerdictIgnoresOrder | evaluation/rules.go:127-155 | the order of outcomes does not change the verdict |
| EvaluationDecision.DeriveFailsOnlyWhenIncomplete | evaluation/rules.go:127-155 | in a valid state derivation fails only for missing rules or no outcomes |
| EvaluationDecision.DerivedResultCompletes | evaluation/aggregate.go:111-151 | whatever a running evaluation derives, completion accepts at any time from the start on |
| EvaluationEvents.ApplyNumbered | evaluation/aggregate.go:96-204 | every operation but history capture emits one stamped event per version it consumes, in order; only the last can end the evaluation |
| EvaluationObject.NormalizeReasonCodes | evaluation/aggregate.go:216-231 | the loop returns the canonical codes at their first occurrence, or the error |
| EvaluationObject.NormalizeRuleOutcome | evaluation/rules_advanced.go:80-101 | the normal form of an outcome, or the error |
| EvaluationObject.NormalizeEvidenceBinding | evaluation/evidence.go:91-147 | the normal form of an evidence binding, or the error |
| EvaluationObject.EvaluationAggregate.NewEvaluation | evaluation/aggregate.go:78-92 | a valid new aggregate with its creation event, or the error |
| EvaluationObject.EvaluationAggregate.Start | evaluation/aggregate.go:96-109 | the object, its log and its answer are those of the specified start |
| EvaluationObject.EvaluationAggregate.CompleteAt | evaluation/aggregate.go:111-151 | the same for completion, which goes through exactly from the start on, with a known verdict, over a plan recorded in full, and with reasons exactly unless VERIFIED |
| EvaluationObject.EvaluationAggregate.Cancel | evaluation/aggregate.go:161-176 | the same for cancellation |
| EvaluationObject.EvaluationAggregate.Expire | evaluation/aggregate.go:177-201 | the same for expiry |
| EvaluationObject.EvaluationAggregate.RegisterRequiredRuleAt | evaluation/rules.go:86-110 | the same for planning a rule |
| EvaluationObject.EvaluationAggregate.MissingRequiredRuleIDs | evaluation/rules.go:111-123 | exactly the planned rules without an outcome |
| EvaluationObject.EvaluationAggregate.DeriveResult | evaluation/rules.go:127-155 | the loops compute the specified verdict and reasons |
| EvaluationObject.EvaluationAggregate.RecordRuleOutcome | evaluation/rules.go:27-54 | the same for recording one outcome |
| EvaluationObject.EvaluationAggregate.RecordRuleOutcomes | evaluation/rules.go:56-63 | recording one by one, stopping at the first error |
| EvaluationObject.EvaluationAggregate.ValidateRuleOutcomeBatch | evaluation/rules_advanced.go:165-193 | the accepted outcomes in order of rule, or the first error |
| EvaluationObject.EvaluationAggregate.RecordRuleOutcomesAtomic | evaluation/rules_advanced.go:195-215 | the same for atomic recording |
| EvaluationObject.EvaluationAggregate.RecordRuleOutcomeBatch | evaluation/rules_advanced.go:217-252 | the same for batch recording |
| EvaluationObject.EvaluationAggregate.ReplaceRuleOutcome | evaluation/rules_advanced.go:258-294 | the same for replacement |
| EvaluationObject.EvaluationAggregate.ReplaceRuleOutcomesAtomic | evaluation/rules_advanced.go:300-373 | the same for batch replacement |
| EvaluationObject.EvaluationAggregate.RemoveRuleOutcome | evaluation/rules_advanced.go:375-402 | the same for removal |
| EvaluationObject.EvaluationAggregate.RemoveRuleOutcomeIfPresent | evaluation/rules_advanced.go:408-420 | the same for removal if present |
| EvaluationObject.EvaluationAggregate.RemoveRuleOutcomesAtomic | evaluation/rules_advanced.go:440-481 | the same for batch removal |
| EvaluationObject.EvaluationAggregate.RemoveRuleOutcomesIfPresent | evaluation/rules_advanced.go:483-504 | the same for batch removal if present |
| EvaluationObject.EvaluationAggregate.ResetRuleOutcomes | evaluation/rules_advanced.go:506-528 | the same for reset |
| EvaluationObject.EvaluationAggregate.ResetRuleOutcomesAtVersion | evaluation/rules_advanced.go:534-542 | the same for reset under an expected version |
| EvaluationObject.EvaluationAggregate.CreateCheckpoint | evaluation/history.go:65-93 | the same for checkpoints |
| EvaluationObject.EvaluationAggregate.RollbackToCheckpoint | evaluation/history.go:95-118 | the same for rollback |
| EvaluationObject.EvaluationAggregate.RecordHistory | evaluation/history.go:138-161 | the same for history capture |
| EvaluationObject.EvaluationAggregate.BindEvidenceSet | evaluation/evidence.go:52-82 | the same for the evidence binding |
| EvaluationObject.EvaluationAggregate.BindVerificationPolicy | evaluation/policy.go:34-61 | the same for the policy binding |
| EvaluationObject.EvaluationAggregate.ApplyAtomicMutation | evaluation/history.go:268-288 | capture, any sequence of calls, history capture, and restoration on failure |
| Pds.ExecutionKeepsInv | pds/memory_store.go:22-48 | over any interleaving: stored evaluations are valid and fully logged, and a client's base is the stored evaluation as long as versions agree |
| Pds.OutboxIsCompleteLog | pds/memory_store.go:22-48 | the outbox holds for each stored evaluation exactly events 1 to its version, they rebuild it, and an ending event is the only one and last |
| Pds.SavesAreAtomic | pds/service.go:80-268 | no update is lost: a save that goes through applies the request to what is stored at that moment |
| Pds.TerminalAnswersAgree | pds/service.go:193-226 | all successful completions of an evaluation return one decision, all expirations one state, and never both |
| Pds.SavesFailOnlyOnConflict | pds/service.go:250-268 | with a running clock a save succeeds exactly if the version is still the loaded one |
| Pds.CreateIsSound | pds/policy_resolution.go:28-65 | a new evaluation with its whole plan and policy binding is valid and fully logged before its first save |
| PdsDecisions.DecisionsAreDerived | pds/service.go:193-226 | over any interleaving a stored completed evaluation has every planned rule recorded, and its verdict and reasons are those its outcomes give |
| PdsDecisions.DecisionReasonsExactly | evaluation/rules.go:127-155 | the reasons of such a decision are exactly those that its outcomes give |
| PdsDecisions.ExpiryExactly | pds/timeout.go:25-82 | an evaluation is expired exactly if the limits make sense and creation or start plus the limit of its phase has passed; early requests are refused, repeated ones answered |
| PdsDecisions.ExecutionExactly | pds/rule_execution.go:129-218 | outcomes are recorded exactly over qualified evidence and a bound policy, while there are none; a plan done in full is answered, one done in part refused |
| PdsDecisions.OthersExactly | pds/service.go:80-226 | what each other request performs, and exactly which are answered at once; completion performs the worst outcome with its reasons |
| PdsDecisions.UndisturbedCall | pds/service.go:80-268 | in any run a call that nothing comes between has its result stored, recorded in the outbox and answered |
| PdsDecisions.UndisturbedCreation | pds/service.go:59-78 | so has a creation whose identity is free |
| PdsDecisions.AnsweredAtOnce | pds/service.go:80-248 | a call with nothing to save is answered at once, with what it found or why not, and stores nothing |
| PdsDecisions.ConflictsAreReread | pds/service.go:80-226 | a call that lost its save is content exactly with the phase it was after |
| PdsDecisions.RecordsExactly | evaluation/outbox.go:94-143 | the records of a save are made exactly with a running clock and of events with identity, number and time, and repeat them |
| Pds.HistoryCapturesOverwrite | pds/memory_store.go:30-36 | at the store two history captures from one version both succeed and the first is lost |
| Pds.OverwritesExactly | pds/memory_store.go:22-48 | of any two lots of work, operations and atomic mutations mixed, done on one stored evaluation and saved under its version in turn, the second save goes through over a change of the first exactly if the first raised no version yet captured history, left a binding, or left another cancellation reason |
| Pds.LeftBindingIsOverwritten | pds/memory_store.go:22-48 | at the store a binding left by a failed mutation is saved, and wiped out by the next save under the same version |
| EvaluationMixed.RunExactly | evaluation/aggregate.go:96-201 | over any operations the version rises and the history grows exactly if some call does it, judged by its guards, and without a raised version nothing but the history changes |
| EvaluationMixed.WorkExactly | evaluation/history.go:203-288 | the same over operations and atomic mutations mixed, where failed mutations can besides leave bindings and a cancellation reason: which ones, exactly |
| EvaluationMixed.SilentExactly | evaluation/history.go:203-288 | such work changes an evaluation under an unchanged version exactly if it captured history, or a failed mutation left a binding or another cancellation reason, and no call raised the version |
| EvaluationMixedLog.MixedLogRebuilds | evaluation/history.go:244-288 | for every mixed run from creation the log rebuilds the aggregate but for the reasons of an exceptional decision and what failed mutations left in the bindings and the cancellation reason |
| EvaluationMixedLog.MixedLogIsExactExactly | evaluation/history.go:244-288 | it rebuilds the aggregate exactly if and only if the verdict is not VERIFIED_WITH_EXCEPTION, no failed mutation left a binding, and none left a cancellation reason unless the evaluation was cancelled later |
| PdsStore.MemoryStore.SaveEvaluation | pds/memory_store.go:22-48 | compare-and-set on the version, then snapshot and records together |
| PdsStore.MemoryStore.FindEvaluation | pds/memory_store.go:50-61 | the stored evaluation, or not found |
| PdsStore.RehydrateEvaluation | evaluation/snapshot.go:62-100 | the loop rebuilds what is specified, or gives the first error |
| PdsStore.ListCheckpoints | evaluation/history.go:120-136 | the checkpoints in order of name, whatever order the map is walked in |
| PdsStore.RehydratedIsStable | evaluation/snapshot.go:62-177 | whatever is rebuilt, from any snapshot, survives being saved and rebuilt again |
| PdsStore.BuildOutboxRecords | evaluation/outbox.go:130-143 | one record per event in order, or the first error |
| Responsibility.Conservation | responsibility/repository.go:44-161 | after any writes each object has one assignment, versions rise by one, times strictly increase, no handover is to oneself, and stored events link consecutive assignments |
| Responsibility.DuplicateCheckNeverFires | responsibility/repository.go:62-65 | a commit that names the current assignment is never refused for an event already stored |
| Responsibility.StoredTransfersLink | responsibility/repository.go:72-87 | an event is stored under exactly the versions a handover created and names both participants |
| Responsibility.CommittedStaysFound | responsibility/repository.go:44-87 | a committed handover is found under its version for ever, as committed, whatever is written later |
| Responsibility.OneSuccessor | responsibility/repository.go:44-112 | of two writes on one version of one object at most one is accepted, whatever comes between |
| Responsibility.ChainGrows | responsibility/repository.go:44-112 | accepted assignments are never rewritten |
| ResponsibilityAccepts.TransfersExactly | responsibility/aggregate.go:126-151 | a handover is made exactly to another, cleanly named participant at a later time, and tells of itself |
| ResponsibilityAccepts.SavesExactly | responsibility/repository.go:89-112 | an assignment is stored exactly if it is one and follows what is stored; otherwise nothing changes |
| ResponsibilityAccepts.CommitsExactly | responsibility/repository.go:44-70 | a handover is committed exactly if it follows the stored assignment, from its holder, with an event that tells of it and is not there yet |
| ResponsibilityAccepts.FindsExactly | responsibility/repository.go:72-128 | what is stored is found, under a clean name, and nothing else |
| HandoverObjects.Assignment.Transfer | responsibility/aggregate.go:126-151 | the handover with its event, or the error and nothing changed; the version wraps at 64 bits |
| HandoverObjects.Assignment.Rehydrate | responsibility/aggregate.go:113-122 | an assignment from a valid snapshot, or the first error |
| HandoverObjects.Assignment.New | responsibility/aggregate.go:102-111 | a first assignment under version one, or the first error |
| HandoverObjects.MemoryRepository.CommitTransfer | responsibility/repository.go:44-70 | the repository and answer of the specified commit |
| HandoverObjects.MemoryRepository.SaveResponsibility | responsibility/repository.go:89-112 | the repository and answer of the specified save |
| HandoverObjects.MemoryRepository.FindResponsibility | responsibility/repository.go:114-128 | a fresh copy of the stored assignment, or the error |
| HandoverObjects.Service.TransferExpected | responsibility/service.go:42-86 | refused unless the stored assignment is the expected one; otherwise one commit |
| Handover.CommitsFollowPermits | safety/machine.go:113-158 | every machine commit moved the object from the permit's holder to its target, between consecutive assignments, under a permit in force when it was verified, and no assignment is left twice |
| Handover.FinishExactly | responsibility/repository.go:44-70 | the write of a prepared commit succeeds exactly if the held assignment is still stored and the version can rise |
| Handover.StaleNeverCommits | safety/machine.go:131-181 | a machine behind the repository stays behind and never commits again, recovery included |
| Handover.StaleHalts | safety/machine.go:145-151 | such a machine, trying, halts for a concurrent change and writes nothing |
| Handover.CommitOutdatesOthers | responsibility/service.go:42-64 | once one of two machines holding an assignment commits, the other is behind |
| Handover.CommitBeginsExactly | safety/machine.go:131-158 | a VERIFIED machine's commit begins exactly if its assignment is the stored one and the time is later |
| Handover.CommitInForceExactly | safety/machine.go:131-158 | over every run, a commit that goes through is recorded at the caller's time, so within its permit exactly if that time was, whatever happened between its two steps |
| Handover.ExpiredPermitCommits | safety/machine.go:131-158 | a run that commits after its permit has expired |
| Handover.UndisturbedCommit | safety/machine.go:131-158 | the two modelled steps, undisturbed, are the one call |
| Handover.ExecutionKeepsInv | safety/machine.go:96-214 | over any run: only VERIFIED machines have commits under way, with a permit for exactly that handover |
| HandoverObjects.SafetyMachine.NewMachine | safety/machine.go:70-76 | an idle machine for a valid assignment, or the error |
| HandoverObjects.SafetyMachine.Propose | safety/machine.go:96-111 | the machine and answer of the specified proposal, coherent if it was |
| HandoverObjects.SafetyMachine.Verify | safety/machine.go:113-129 | the same for verification, which goes through exactly by a permit in force for the held object, its holder and the proposed participant |
| HandoverObjects.SafetyMachine.Commit | safety/machine.go:131-158 | repository, machine and answer of the specified commit, a missing service included |
| HandoverObjects.SafetyMachine.Halt | safety/machine.go:160-165 | HALT with the given or the manual reason |
| HandoverObjects.SafetyMachine.Recover | safety/machine.go:167-181 | the same for recovery, which goes through exactly by a permit in force that leaves the held object with its holder |
| HandoverObjects.SafetyMachine.AuthorizeMotion | safety/interlock.go:43-79 | the specified decision, allowed exactly for a clean, numbered request for the machine's object and participants within the permit |
| Safety.VerifyExactly | safety/machine.go:113-129 | a PROPOSED machine is verified exactly by such a permit, and keeps it; any other permit halts it |
| Safety.RecoverExactly | safety/machine.go:167-181 | a machine leaves HALT exactly by a permit in force for its object and holder; otherwise nothing changes but the reason |
| Safety.ReasonsExactly | safety/machine.go:183-199 | which of the three reasons a refused permit is given, by what is wrong with it |
| Safety.ProposeExactly | safety/machine.go:96-111 | a proposal is taken exactly from IDLE or COMMITTED for another, cleanly named participant |
| Safety.HaltExactly | safety/machine.go:160-165 | halting always ends in HALT, holding what was held, for a reason |
| Safety.MotionExactly | safety/interlock.go:43-79 | the whole decision: when motion is allowed, what it then repeats, and what a refusal does to the machine |
| Safety.EnteredExactly | safety/machine.go:96-181 | of all actions only recovery leads out of HALT, only verification into VERIFIED and only a proposal into PROPOSED, each with what it takes |
| Safety.PreparesExactly | responsibility/service.go:42-85 | a handover is prepared exactly if the stored assignment is the held one, for another participant at a later time |
| Handover.LeavesHaltExactly | safety/machine.go:131-181 | in every run a halted machine leaves HALT exactly by such a recovery, and commits nothing on the way |
| Handover.HaltedStays | safety/machine.go:131-181 | without one it stays in HALT with what it holds and commits nothing, whatever else happens |
| Qualification.Qualify | evidence/qualification.go:113-173 | the verdict on one object, its reasons in order; QUALIFIED exactly if it meets every demand of the policy |
| Qualification.FitExactly | evidence/qualification.go:129-171 | nothing speaks against an object exactly if it is intact, its source, type and method are allowed, it is neither of the future nor too old, its confidence suffices, and all provenance and fields demanded are there |
| Qualification.ReasonsExactly | evidence/qualification.go:129-168 | each reason is given exactly for its own cause |
| Qualification.ReasonsAscend | evidence/qualification.go:135-168 | the reasons come in the order of the checks |
| Qualification.SetReasonsExactly | evidence/qualification.go:217-260 | in the result of a set each reason stands exactly for its cause: against the object alone, another session, a dispute, or else an earlier observation |
| Qualification.SetAnswersExactly | evidence/qualification.go:179-270 | the whole answer: which error, one entry per object, UNAVAILABLE exactly for missing ones, QUALIFIED exactly if there are entries and all of them are |
| Qualification.QualifySet | evidence/qualification.go:179-270 | sorting, grouping through a map in any order, and marking in place give the verdict defined by comparing each object with all others |
| Qualification.GroupDecides | evidence/qualification.go:237-260 | comparing a group with its first member decides what comparing all pairs would |
| Qualification.QualifiedExactly | evidence/qualification.go:179-270 | in the result an object of the sorted set is qualified exactly if it is there, meets every demand of the policy, is of the session, contradicted by no observation of its source, type and instant, and the first of them |
| Qualification.QualifiedByIdentity | evidence/qualification.go:175-270 | without any order: exactly if it meets every demand of the policy and is of least identity among undisputed observations of the same source, type and instant in the session |
| Qualification.SetIgnoresOrder | evidence/qualification.go:186-199 | the order of present objects with distinct identities does not matter |
| Qualification.KeyIsIdentity | evidence/qualification.go:233-234 | the text key separates groups exactly by source, type and instant |
| QualificationBinding.BindingAcceptedExactly | evaluation/evidence.go:91-147 | the mapped result normalises exactly if every object was present and no identity repeats |
| QualificationBinding.AggregateBindsExactly | pds/service.go:132-172 | the aggregate binds it exactly if, besides, it has not ended, holds no outcomes, is of the session and is bound to nothing else |
| QualificationBinding.MissingObjectIsRefused | evaluation/evidence.go:106-108 | a set with a missing object |
| QualificationBinding.SharedIdentityIsRefused | evaluation/evidence.go:109-111 | any two objects sharing an identity |
| SequenceOperator.EvaluateEvidence | ruleoperator/sequence.go:78-120 | the loop computes the specified decision, PASS exactly if the leftmost embedding fits |
| SequenceOperator.NextMatchingEvidence | ruleoperator/sequence.go:122-129 | the first match from a place on, or none |
| SequenceOperator.PassExactly | ruleoperator/sequence.go:78-120 | PASS exactly if the leftmost embedding of the steps meets every value, gap and the duration |
| SequenceAnswers.AnswersExactly | ruleoperator/sequence.go:86-119 | every other answer is given exactly if the leftmost choice gets through some first steps and the next one is missing, unreadable, without the field, of another value, too late after the last, or too long after the first |
| SequenceOperator.GreedyIsLeftmost | ruleoperator/sequence.go:88-95 | whenever the steps embed, the greedy choice exists and is earliest at every step |
| SequenceOperator.OrderVerdictsAreSound | ruleoperator/sequence.go:89-95 | order or completeness is faulted only if no embedding exists; incompleteness only if a step matches nothing |
| SequenceOperator.DecisionIgnoresOrder | ruleoperator/sequence.go:79-85 | the order of evidence with distinct time and identity does not matter |
| SequenceOperator.AnotherEmbeddingMightPass | ruleoperator/sequence.go:78-120 | evidence on which the rule fails though another embedding meets every bound |
| JsonPointer.UnescapeDecodes | ruleoperator/selector.go:105 | on every well-escaped token the two replacements are one left-to-right decoding |
| JsonPointer.UnescapeUndoesEscape | ruleoperator/selector.go:105 | they undo the escaping of section 4 of RFC 6901 |
| JsonPointer.CanonicalPointerResolves | ruleoperator/selector.go:96-124 | the canonical pointer of any node of any document resolves to that node |
| JsonPointer.ValueAt | ruleoperator/selector.go:96-124 | the loop follows the tokens as specified |
| JsonPointer.ItemsExactly | ruleoperator/selector.go:113-118 | an item is taken exactly by a token that writes its index, signs and leading zeros included |
| JsonPointer.NoItemOtherwise | ruleoperator/selector.go:113-118 | a token that writes no index of the array takes nothing |
| JsonPointer.SignsAndZerosAreTaken | ruleoperator/selector.go:113-118 | "+07" takes the eighth item, which section 4 of RFC 6901 does not allow |
| JsonPointer.NormalizePointer | ruleoperator/selector.go:42-62 | accepted exactly if rooted and every token well escaped; the trimmed pointer is kept |
| JsonPointer.SelectorKeepsExactly | ruleoperator/selector.go:42-62 | every canonical pointer is accepted, cut to that of the path without white space at the end of its last member name; so it is kept exactly unless there is some |
| JsonPointer.SelectedNodeIsReached | ruleoperator/selector.go:42-124 | selecting any node by its canonical pointer reaches it otherwise |
| JsonPointer.TrailingSpaceIsLost | ruleoperator/selector.go:44 | a member whose canonical pointer is cut to one that resolves to nothing |
| JsonPointer.NoSelectorReaches | ruleoperator/selector.go:42-124 | no selector at all reaches a scalar member whose name ends in white space |
| Verification.VerificationInputs | evidencebundle/independent_verification.go:116-165 | collecting trace and evidence and consuming the references gives the trace and its evidence in order, or the first error |
| Verification.InputsAreTheRuns | evidencebundle/independent_verification.go:116-165 | however a readable bundle orders its objects, the verifier gets its one trace and the evidence it names, in the order of the trace |
| Verification.VerifyDecision | evidencebundle/independent_verification.go:46-114 | accepts exactly the sound bundles, and answers any other as specified: inputs, scope, identity of evaluation, session and policy, rules, verdict |
| Verification.VerifiedExactly | evidencebundle/independent_verification.go:46-114 | for every bundle and all rules: accepted exactly if all decodes and is intact, one trace names exactly the evidence, is complete and about the bundle's evaluation, session, policy and plan, every rule gives again what is recorded at its place, and the verdict is the worst outcome |
| Verification.RefusedExactly | evidencebundle/independent_verification.go:80-108 | the first place that does not come out again decides the refusal, and only if all do, a stored verdict other than the worst outcome |
| Verification.InputsExactly | evidencebundle/independent_verification.go:116-165 | the verifier has a trace and evidence exactly if the bundle presents them |
| Verification.RecheckExactly | evidencebundle/independent_verification.go:80-108 | re-running succeeds exactly if every place names the planned rule and is reproduced, and yields the derived verdict |
| Verification.AcceptedExactly | evidencebundle/independent_verification.go:80-113 | a complete trace with the derived verdict for the policy of its bundle is accepted exactly if every place matches |
| HonestRuns.HonestRunAcceptedExactly | pds/rule_execution.go:129-218 | an honest run, bundled in any order, is accepted exactly if its plan ascends and every rule gives its reasons in normal form |
| HonestRuns.HonestRunsHappen | pds/rule_execution.go:129-218 | every running evaluation the executor accepts, with a plan and decisions that can be recorded, gets through execution and completion |
| HonestRuns.DescendingPlanIsRefused | evaluation/rules_advanced.go:191 | a run of two passing rules planned as b, a whose bundle is refused |
| Outbox.RetryDelay | evaluation/outbox.go:214-226 | for any policy and attempt the value of the machine loop, a panic exactly for a zero multiplier from the second attempt on, and never above the cap; for a valid policy no overflow, and between base and cap |
| Outbox.DelayIsMonotone | evaluation/outbox.go:214-226 | later attempts never wait less |
| Outbox.DelayIsCappedPower | evaluation/outbox.go:214-226 | the delay exceeds the capped power by less than one multiplier, and equals it exactly unless a truncating division hits its quotient |
| Outbox.TruncationShows | evaluation/outbox.go:217-219 | a policy for which it does |
| Outbox.FailureOutcome | evaluation/outbox.go:227-265 | a failed attempt frees the lock and is final exactly if attempts are used up, otherwise due after a wait between base and cap |
| Outbox.OnlyTheStarterPublishes | evaluation/outbox.go:145-198 | a started record counts one attempt more and can be published by exactly the worker that started it, once |
| Outbox.StartsExactly | evaluation/outbox.go:145-175 | a record is started exactly if it is not over, by a named worker, at a time, for a positive duration; and what that sets |
| Outbox.PublishesExactly | evaluation/outbox.go:176-198 | it is marked published exactly by the worker that holds it, once, at a time |
| Outbox.FailsExactly | evaluation/outbox.go:227-265 | a failure is taken exactly from the worker that holds it, while it is not over, with time, reason and a policy that makes sense |
| Outbox.OutboxRecord.Start | evaluation/outbox.go:145-175 | the record method refines StartPublishing, which `Lease.ClaimIsStart` proves to be what the claiming statement does |
| Outbox.OutboxRecord.Publish | evaluation/outbox.go:176-198 | the record method refines MarkPublished, which `Lease.GuardIsRecordsOwn` proves to be what the marking statement does |
| Outbox.OutboxRecord.Fail | evaluation/outbox.go:227-265 | the record method, calling the delay loop, refines RegisterFailure, of which `Outbox.FailureOutcome` and the lease theorems speak |
| Lease.ClaimIsStart | persistence/postgres/outbox_repository.go:42-71 | in every run the claiming statement does to each row what starting the record does |
| Lease.ClaimableExactly | persistence/postgres/outbox_repository.go:42-71 | in every run a row can be claimed exactly if it is new or its next attempt is due: what waits is unlocked |
| Lease.GuardIsRecordsOwn | persistence/postgres/outbox_repository.go:112-124 | in every run the guard of the marking statement accepts exactly the reports the record itself would, all under the name of the latest claim |
| Lease.LeaseSafety | persistence/postgres/outbox_repository.go:42-210 | in every run, shared worker names or not: PUBLISHING exactly with an owner, the name of the latest claim; attempts are at most the claims and pass the maximum by no more than the released locks; published means delivered; dead-lettered means attempts used up |
| Lease.TerminalRowsStay | persistence/postgres/outbox_repository.go:94-210 | PUBLISHED and DEAD_LETTERED rows never change again |
| Lease.ReportsComeUnderLatestName | evaluation/publisher.go:90-122 | a report changes a row only under the name of its latest claim while that lock stands; it publishes exactly what was accepted and dead-letters exactly on failure with its copy's attempts used up |
| Lease.ReportsExactly | evaluation/publisher.go:96-122 | in every run a report changes a row exactly if it is dated, about the first record of the call, under the name that holds the row, and the broker took the message or failed for a reason |
| Lease.AnswerStands | evaluation/publisher.go:96-122 | what the broker said about a record stands until the call reports it or gives up |
| Lease.ExecutionKeepsInv | persistence/postgres/outbox_repository.go:24-210 | a call's copy of a row is of a claim under its name, and is the row as long as that claim is the latest and stands |
| LeaseAttempts.AttemptsCountClaimsExactly | persistence/postgres/outbox_repository.go:153-184 | in every run the attempts of a row are its claims exactly if no failure of an older claim under the same name was ever accepted; otherwise they fall short for good |
| LeaseAttempts.ReportsAreOfLatestClaim | evaluation/publisher.go:90-122 | if calls in progress never share a name, a report that changes a row is of its latest claim, and the copy it writes from is the row |
| LeaseAttempts.ApartIsNeverStale | evaluation/publisher.go:90-122 | so in such a run attempts always count claims |
| LeaseAttempts.SharedNameMisreports | persistence/postgres/outbox_repository.go:164-184 | a run of two calls under one name: claimed, released, claimed again, and the failure of the first call dead-letters the row the second is publishing, with one attempt counted of two |
| LeaseAttempts.PassesMaximumExactly | persistence/postgres/outbox_repository.go:186-210 | in every run a row passes its maximum only if a lock on it ran out with attempts used up and it was claimed again later, and exactly then unless such a failure took attempts back |
| LeaseAttempts.AttemptsCanPassMaximum | persistence/postgres/outbox_repository.go:186-210 | a run that does |
| Encoding.PutUint64 | audit/chain.go:89 | the bytes of a scalar, most significant first, and nothing else written |
| Encoding.ScalarReadsBack | audit/chain.go:84-97 | eight bytes, most significant first, read back as the number written |
| Encoding.BigEndianIsInjective | audit/chain.go:89 | fixed-width big-endian digits determine the number |
| Encoding.FramedIsPrefixFree | responsibility/aggregate.go:84-89 | a length-prefixed string can be read off any continuation |
| Encoding.Utf8IsInjective | responsibility/aggregate.go:84-89 | the bytes of a string determine it |
| Encoding.MicrosTellInstants | audit/chain.go:95 | equal unsigned microseconds mean instants equal to the microsecond |
| Audit.CalculateRoot | audit/chain.go:84-97 | filling the fixed buffer field by field hashes exactly the specified preimage |
| Audit.PreimageIsInjective | audit/chain.go:84-97 | equal preimages are of equal entries, to the microsecond |
| Audit.NewEntryIsCanonical | audit/chain.go:44-82 | a new entry validates exactly unless its time is truncated to the zero time |
| Audit.MadeExactly | audit/chain.go:44-69 | an entry is made exactly of a known kind, in its place, with record and time, and holds those under the root of all of them |
| Audit.AppendsExactly | persistence/postgres/audit_repository.go:14-47 | an entry is appended exactly if it is canonical and follows the head by number and root |
| Audit.RunIsChainedExactly | persistence/postgres/audit_repository.go:14-92 | over any operations the ledger is one unbroken chain of canonical entries exactly if nothing was recorded within the first microsecond of the zero time |
| Audit.RecordingExactly | persistence/postgres/audit_repository.go:74-92 | on an unbroken ledger a record is taken exactly if it is well formed, there is room, and the head root is not the zero root, which would pass for the start of a chain |
| Audit.RunOnlyExtends | persistence/postgres/audit_repository.go:14-104 | whatever is appended or recorded, the ledger is only extended |
| Audit.FirstMicrosecondBreaks | audit/chain.go:59-67 | a record the ledger takes whose entry is not canonical |
| Audit.EqualRootsEqualHistories | audit/chain.go:84-97 | two chains that share a root anywhere are one chain up to there |
| Audit.EqualHeadsEqualLedgers | audit/chain.go:84-97 | equal head roots mean equal ledgers |
| Audit.Ledger.AppendAuditEntry | persistence/postgres/audit_repository.go:14-47 | the guarded append, keeping the chain |
| HandoverProof.TransferPreimageIsInjective | responsibility/aggregate.go:65-89 | equal transfer preimages are of the same handover to the microsecond |
| HandoverProof.EqualTransferRoots | responsibility/aggregate.go:65-82 | equal transfer roots are roots of the same handover |
| HandoverStore.StoredEventsAreAudited | persistence/postgres/responsibility_handover.go:13-70 | over any saves, commits and other appends to the ledger, every stored handover names an entry of its own kind with the root of the event that was committed, and no two share one |
| HandoverStore.FoundExactly | persistence/postgres/responsibility_handover.go:72-106 | a committed handover is read back exactly if the database kept its microsecond and a nonzero time; otherwise the read reports an invalid audit link |
| HandoverStore.FoundIsAudited | persistence/postgres/responsibility_handover.go:83-105 | on any database whatever, a handover given out is valid and its ledger holds an entry of the handover kind under the row's number with the root of just this event |
| HandoverStore.TruncatingKeepsLinks | persistence/postgres/responsibility_handover.go:72-106 | with instants rounded down it always is, to the microsecond, unless it happened in the first microsecond of the zero time; no trust in the hash is needed |
| HandoverStore.RoundingUpBreaksLinks | persistence/postgres/responsibility_handover.go:99-104 | a run on a database that rounds to the nearest microsecond: the handover it keeps as the next one is reported with an invalid audit link |
| HandoverStore.LedgerIsChainedExactly | persistence/postgres/responsibility_handover.go:45-56 | the ledger of the database is a run of the ledger alone, and one unbroken chain exactly if nothing was recorded in the first microsecond of the zero time |
| HandoverStore.AssignmentsAreRun | persistence/postgres/responsibility_repository.go:12-51 | assignments and events of the database are those of the repository given its accepted writes, unless one was kept as the zero time |
| HandoverStore.StoreConserves | persistence/postgres/responsibility_handover.go:35-65 | so the assignments and events of each object form one unbroken chain of versions, participants and times in the database too |
| HandoverStore.CommitAcceptedExactly | persistence/postgres/responsibility_handover.go:22-65 | on an unbroken ledger a commit goes through exactly if it is well formed, storable and current, its root and the head root are not the zero root, and the ledger has room; the key of the event is always free |
| HandoverStore.SaveAcceptedExactly | persistence/postgres/responsibility_repository.go:12-51 | an assignment is stored exactly if it is well formed, writable and follows the stored one at a later kept time |
| HandoverStore.AllOrNothing | persistence/postgres/responsibility_handover.go:30-69 | a refused transaction changes nothing; an accepted one writes an assignment, a ledger entry, or for a commit both |
| HandoverProof.HeadFixesHandovers | persistence/postgres/responsibility_handover.go:45-65 | ledgers with one head name the same handover wherever they name a transfer root |
| HandoverProof.EqualProofRoots | responsibility/proof_binding.go:84-125 | valid proofs with equal roots are one proof, field by field |
| HandoverProof.DomainsAreSeparate | responsibility/proof_binding.go:101-103 | chain entries, transfers and proofs are never hashed over the same bytes |
| PolicyRegistry.OverlapExactly | policy/registry.go:138-141 | the comparison of bounds decides whether two periods share an instant |
| PolicyRegistry.RunIsDisjoint | policy/registry.go:36-63 | in every run the versions of a policy hold for disjoint periods |
| PolicyRegistry.NeverAmbiguous | policy/registry.go:94-111 | resolving is never ambiguous |
| PolicyRegistry.ResolvesExactly | policy/registry.go:94-111 | in every run a version is resolved exactly if it is active, was so by then, and its period holds the instant |
| PolicyRegistry.AddedIsResolved | policy/registry.go:36-111 | from its activation to the end of its period an added version is resolved, exactly unless it was withdrawn |
| PolicyRegistry.AddsExactly | policy/registry.go:36-63 | a new version is taken exactly if no other of its policy holds at an instant it holds, and one already there exactly with the same digest |
| PolicyRegistry.ChangesExactly | policy/registry.go:73-92 | a lifecycle change is made exactly forward, dated and not before the last |
| PolicyRegistry.FindsExactly | policy/registry.go:116-131 | a version is found exactly by name, version and digest |
| PolicyRegistry.LifecycleMovesForward | policy/registry.go:73-92 | entries stay, versions unchanged, status and time only moving forward |
| PolicyRegistry.WithdrawnStaysWithdrawn | policy/registry.go:94-111 | a suspended or retired version is never resolved again, even after being added once more |
| PolicyRegistry.AddedStaysFindable | policy/registry.go:116-131 | an added version can be found by exact identity for ever, unchanged |
| PolicyRegistry.EntriesWereAdded | policy/registry.go:36-63 | every entry goes back to an activation and is in force no earlier |
| PolicyRegistry.Registry.AddVersion | policy/registry.go:36-63 | the registry and answer of the specified addition, whatever order versions are compared in |
| PolicyRegistry.Registry.Change | policy/registry.go:65-92 | the same for suspension and retirement |
| PolicyRegistry.Registry.Resolve | policy/registry.go:94-111 | the single match, none, or ambiguity, by the number of matches |

## Left out

- HTTP handlers, command-line programs, migrations, PostgreSQL access beyond the row guards named above: input and output.
- SHA-256, Ed25519, JSON text and ZIP bytes: the hash is a parameter, JSON documents are trees, and comparing marshalled values is comparing trees.
- Signature, timestamp and certificate checks: conjunctions of field checks around cryptography.
- Spatial and estimator packages: floating-point validation without state.
- The policy document compiler and the MATCH, RANGE, TOLERANCE and EXISTENCE operators: a compiled rule is a deterministic function of the evidence.
- Bundle manifests, their digests and the decoding of payloads: the re-check starts from a bundle whose digests have been verified, with each object given as what it decodes to.
- Nil receivers, defensive copies and aliasing: collections are values here.
- Wrap-around of evaluation versions at 2^64 and of outbox attempts at 2^32: both are unbounded naturals; assignment versions and back-off do wrap.
- The execution service's calls to resolver, evidence store and operators inside the interleaved system: `Pds` takes the outcomes they produce as part of the request; `HonestRuns` models the executed plan.
- Service calls as one method each: `Pds` has them as steps between which other clients act.
- The decision trace returned by completion: `Pds` answers with the completed evaluation it is read from.
- The publisher's goroutine, tickers and configuration checks: `Lease` has the steps they drive.
- Location and monotonic reading of instants: Go compares `time.Time` with `==` in policy bindings and in TransferExpected, which tells apart equal instants in different locations; the model compares instants.
- Failures of the database itself, and values it refuses beyond those named in `HandoverStore`, such as text with a zero character or roots that repeat by a collision: the transaction changes nothing.
- Time formatting in the group key: `Qualification` takes the format as a parameter, injective and free of NUL where that matters.
- Selector fields other than the pointer, and the order in which ready rows are claimed: no property here depends on them.
- Encoding.MicrosTellInstants: requires instants whose Unix microseconds fit 64 bits, outside of which the Go function is undefined.
