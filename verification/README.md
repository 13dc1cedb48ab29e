# Deployment journal, planner and adapters: a verified model

This project models the parts of GOTTH Stack that decide what may happen to a deployment, and proves
what they promise. Four parts of the program are covered.

**The journal** (`pkg/journal`). Approvals, operations and steps move through preflight, apply, verify
and rollback under seven kinds of record. `JournalMachine` is the transition function of one record;
`JournalObject` holds the mutable journal (maps, operation cells, log, head, poisoning), whose methods
follow the source's methods and loops and are proved against that function. `JournalInvariant` and
`JournalKeeps` give the inductive invariant; `JournalRuns` and `JournalReplay` compare live runs, with
reopens anywhere, against replay of the whole log; `JournalHistory`, `JournalRetries`,
`JournalProgress` and `JournalExceptions` state what every reachable operation satisfies.
`JournalAcceptance` says which records are accepted, in terms of the history alone, and
`JournalOutcomes` has a run from a failed mutation to a reported rollback.
`JournalCalls` says what each public call answers or submits; `JournalService` leads the object
through calls, faults and restarts.

**The log** (`storage.go`, `replay.go`). `LogFrames` is the byte format, `LogRecovery` the opening of a
disk, `LogCrash` whole runs in which every append and every opening may stop at any durability step,
`LogChain` what an accepted log must look like. `LogRuns` shows that behind every run of the system
there is a run of the journal, so that the theorems about histories hold after any crash.

**The planner** (`pkg/stack`). `Graphs` gives dependency orders their meaning, `Sorting` the sorted
lists, `StackModel` manifests, plans and their validity, `StackTheory` the relation between building
and validating; `Planner` and `PlanBuilder` are the source's loops. `Approvals` and `ApprovalCalls` tie
a plan to the authority the journal stores; `ApprovalExceptions` has a valid plan that cannot be approved.
`PlanContents` says which manifests have a plan, and what the plan shows of its manifest, without any
notion of the model in between; `PatternShapes` does the same for the textual shapes.

**The adapters** (`internal/adapters`). `Containers` is the engine as a map from name to container;
`Postgresql` and `Authentik` are the two- and four-name replacement machines; `Caddy` is the target
file, its temporary file, the running configuration and the staged transaction.

The pattern is the same throughout: a mutable object whose methods branch as the source does, a pure
description of what a call does, and theorems about every run of that description.

## What is taken from the environment

- Encoding, strict decoding and digests are functions with the stated assumptions only: decoding
  inverts encoding, a digest has 32 bytes, plan and manifest digests have the textual form of a digest.
  Collision freedom is assumed only in `LogChain.CheckpointPinsLog`, and only between the records of the
  two logs compared.
- Time is an integer, 0 the zero time. Every public call is one atomic step, as it is under the mutex.
- A log write that stops leaves a prefix of the frame, and the head file holds the old or the new head.
- An external command may fail before or after taking effect; the caller sees the same error. Binding
  checks, image checks, health probes and the identity of the Caddy target are inputs of each call.
- A Caddy reload that takes effect makes the server run what the staged file adapts to. Whether a read
  of the running configuration succeeds is an input of the calls that read it; reads of the target and of
  staged files succeed, and what they may find is part of the state.
- Opening a log may fail to read it, to repair it, or to confirm the repair: an input of the opening.

## Where the code differs from its documentation or from the obvious claim

- The documentation admits one truncation, of a partial final frame when the head names the record
  before it (`docs/architecture.md:115-117`). A tail cut exactly behind a 44-byte frame header meets that
  condition and is refused as corrupt all the same (`LogCrash.OpenTorn`, `LogCrash.CrashSafety`: this is
  the only such case). Every append can stop there, and then the journal stays closed
  (`LogCrash.TornForever`).
- A sealed operation left for recovery can later be sealed as complete
  (`JournalExceptions.ResealExactly`; `JournalExceptions.RecoveryThenComplete` is a run that does it).
- Reopening relabels a sealed operation whose read-only step was in flight
  (`JournalProgress.ReopenRelabels`; `JournalExceptions.RecoveryThenRelabelled` is a run that does it).
- A plan step without capabilities is projected to a nil list, so such a plan cannot be approved
  (`Approvals.ProjectionExact`; `ApprovalExceptions.UnapprovablePlan` builds one).
- An approval record with an empty, non-nil capability list is not idempotent under a second
  application (`JournalExceptions.RepeatExactly`; such records are valid, `JournalExceptions.EmptyListsAreStored`).
- A record flagged as a retry while nothing is in flight can give one step identity to two phases, and a
  mutation a second attempt (`JournalRetries.UniformExactly`, `JournalRetries.FirstAttemptExactly`;
  `JournalExceptions.StrayRetryHappens` is a run that does it). No public call writes one
  (`JournalRetries.RetriesUniform`, `JournalRetries.MutationsHaveOneAttempt`).
- Where the digests of the previous and the candidate coincide, Caddy never reports "previous", so
  verification of the previous state fails (`Caddy.CandidateFirst`, `Caddy.PreviousVerifiesExactly`);
  preflight accepts such a candidate (`Caddy.EqualIsAccepted`).
- An interrupted removal of a committed Caddy transaction can be finished exactly when no file is gone yet
  (`Caddy.RemovalResumesExactly`; `Caddy.RemainsHappens` is a run that ends in one that cannot be).

## Model

| member | source | states |
|---|---|---|
| JournalReplay.CrashReplay | pkg/journal/replay.go:16-142 | For every interleaving of requests and reopens: the journal always reopens, replaying the whole log from empty accepts every record, and relabelling the replayed projection gives exactly the relabelled live one |
| JournalReplay.RecordAgrees | pkg/journal/state.go:10-38 | Stepwise: a record the live (possibly relabelled) projection accepts is accepted by the plain replayed one, and the two stay in step |
| JournalReplay.EventAgrees | pkg/journal/state.go:89-269 | The same for one operation and each of its five record kinds |
| JournalReplay.MarkTwice | pkg/journal/replay.go:129-142 | Relabelling a relabelled operation changes nothing |
| JournalReplay.StartsAgree | pkg/journal/state.go:57-85 | Starting an operation is decided alike on the live and the replayed projection |
| JournalRuns.TransitionKeeps | pkg/journal/state.go:10-269 | Every accepted record keeps the whole invariant: histories, flags, states, bindings, sole authority |
| JournalRuns.MarkKeeps | pkg/journal/replay.go:129-142 | Relabelling after a reopen keeps the invariant |
| JournalKeeps.DecideKeeps | pkg/journal/state.go:89-269 | Every accepted record about an operation keeps its invariant |
| JournalKeeps.DecideFrames | pkg/journal/state.go:89-269 | Accepted or refused, no record changes the identity, approval, plan or start of an operation, or takes back its seal |
| JournalKeeps.StartKeeps | pkg/journal/state.go:89-132 | An accepted start extends the history lawfully, including the retry that closes an interrupted attempt |
| JournalKeeps.FinishKeeps | pkg/journal/state.go:136-189 | An accepted finish resolves the running step and leaves a state that fits the history |
| JournalKeeps.SealKeeps | pkg/journal/state.go:231-269 | An accepted terminal record fits the history it seals |
| JournalKeeps.OnlyLastRuns | pkg/journal/state.go:398-405 | At most the newest step is in flight, and the backward scan finds it |
| JournalHistory.PhaseOrder | pkg/journal/state.go:334-375 | In every reachable operation phases are sorted, only the last step may run, and every apply or verify step follows a succeeded preflight of every approved component |
| JournalHistory.RetryChains | pkg/journal/state.go:338-351 | In every reachable operation, whatever records it came from, attempts of a step count 1..k, all but the newest are abandoned read-only ones, so a mutation is never retried, and mutations have distinct idempotency digests |
| JournalHistory.SameIdentity | pkg/journal/state.go:338-346 | Of two steps with one identity the older was abandoned and has the smaller attempt |
| JournalHistory.CompleteSound | pkg/journal/state.go:474-496 | A reachable complete operation has, per component, a succeeded verify after every mutation; all mutations succeeded; nothing was rolled back |
| JournalHistory.RolledBackSound | pkg/journal/state.go:500-518 | In a reachable rolled-back operation apply mutations and rollback steps are in bijection, pairs share component and reference, every rollback succeeded, no mutation is recovery-only |
| JournalHistory.DistinctUndo | pkg/journal/state.go:454-461 | No mutation is compensated by two rollback steps |
| JournalHistory.UntouchedWhenAbandoned | pkg/journal/state.go:193-207 | A cancelled or failed-sealed history contains no mutation |
| JournalProgress.SealedStays | pkg/journal/state.go:231-269 | Under any accepted record a sealed operation keeps its seal and its steps; its outcome changes only from recovery to complete |
| JournalProgress.Authority | pkg/journal/state.go:41-85 | Approvals never change, each starts at most one operation, at most one operation is unfinished |
| JournalProgress.NoDeadlock | pkg/journal/operation.go:41-161 | After any run every unfinished operation has at most three further public calls, each of which submits a record that is accepted, after which it is sealed |
| JournalCalls.CallsSubmitExactly | pkg/journal/operation.go:7-161 | Among the records replay accepts, the issued ones are exactly those that some public call submits |
| JournalCalls.IssuedIsSubmitted | pkg/journal/operation.go:7-161 | An issued, accepted record is what its own call submits |
| JournalCalls.RefusedExactly | pkg/journal/operation.go:101-103 | What replay accepts is refused by its call exactly when it finishes a recovered read-only attempt |
| JournalCalls.ReadsWhatHolds | pkg/journal/operation.go:7-161 | A call that succeeds without a record found in the projection everything it asked for |
| JournalCalls.SubmittedInTime | pkg/journal/operation.go:24-27 | No call submits an approval that has expired, or an operation under one |
| JournalProgress.ReopenRelabels | pkg/journal/replay.go:129-142 | A reopen relabels exactly the operations whose newest step runs, sealed or not, and never unseals |
| JournalProgress.SealsRecovery | pkg/journal/state.go:252-258 | An unfinished operation that mutated can always be sealed for recovery |
| JournalProgress.RetryAccepted | pkg/journal/state.go:97-116 | The retry of the interrupted newest attempt is accepted while nothing has been mutated |
| JournalAcceptance.StartExactly | pkg/journal/state.go:89-132 | With nothing in flight, a step not yet recorded is accepted exactly when it is well formed and the history lets it begin: by phase, what must have succeeded, failed, begun or not been undone; by identity and idempotency digest, what must be new. It is then appended as it stands |
| JournalAcceptance.ContinueExactly | pkg/journal/state.go:97-116 | With a step in flight, a new step is accepted exactly when it is the flagged next attempt of the same read-only request; the one in flight is then closed as interrupted |
| JournalAcceptance.WellFormedExactly | pkg/journal/state.go:321-330 | Stored step validation passes exactly for the requests a caller may make in each phase, freshly stamped |
| JournalAcceptance.LabelOf | pkg/journal/state.go:168-188 | With nothing in flight, the label of an unfinished operation is a matter of its history |
| JournalAcceptance.FinishExactly | pkg/journal/state.go:136-189 | A result for the step in flight is accepted exactly when it is well formed, the operation unsealed, and only a mutation reconciled; that step alone changes, and a failed one becomes the failure |
| JournalAcceptance.FinishOthers | pkg/journal/state.go:136-150 | A result accepted for anything else was recorded before, and changes nothing |
| JournalAcceptance.CancelExactly | pkg/journal/state.go:193-207 | Short of a repetition, cancelling is accepted exactly for an unfinished, idle, unfailed operation that only preflighted |
| JournalAcceptance.BeginRollbackExactly | pkg/journal/state.go:212-227 | Short of a repetition, a rollback begins exactly for an unfinished, idle operation with an applied mutation that says how to undo it |
| JournalAcceptance.CompleteExactly | pkg/journal/state.go:474-496 | Completion is accepted exactly when every component verified, every mutation succeeded and nothing failed or is in flight |
| JournalAcceptance.FailedExactly | pkg/journal/state.go:248-251 | Failure is accepted exactly with a failure, nothing in flight and no mutation |
| JournalAcceptance.RecoveryExactly | pkg/journal/state.go:252-258 | An unfinished operation is left for recovery exactly when it contains a mutation |
| JournalAcceptance.RolledBackExactly | pkg/journal/state.go:500-518 | A rollback is reported exactly when it has begun, nothing is in flight, every applied mutation said how to undo it and a succeeded rollback step names it, and no rollback step failed, whatever failed before |
| JournalAcceptance.SealsAs | pkg/journal/state.go:231-269 | Sealing sets the label of the outcome and the end, and nothing else |
| JournalAcceptance.RepeatAccepted | pkg/journal/state.go:89-269 | Any record about an operation is idempotent: accepted once, it is accepted again and changes nothing |
| JournalAcceptance.OperationStartsExactly | pkg/journal/state.go:57-85 | A new operation starts exactly when its approval is known, is for this plan, has not expired and has started none, and every other operation has ended |
| JournalAcceptance.RepeatOperation | pkg/journal/state.go:57-65 | A repeated start is accepted and changes nothing |
| JournalAcceptance.NextStarts | pkg/journal/state.go:57-85 | Once every operation is sealed, another one starts under an unused approval in time |
| JournalAcceptance.StartedInTime | pkg/journal/state.go:70-72 | In every reachable projection every operation started before its approval expired, for the plan it approves |
| JournalAcceptance.ApprovalExactly | pkg/journal/state.go:288-319 | Stored validation passes exactly for an approval whose components stand in place, distinct and well formed, and whose bindings ascend and name them |
| JournalAcceptance.RecordsExactly | pkg/journal/state.go:41-53 | A new approval is recorded exactly when it stands, and touches nothing else |
| JournalAcceptance.StampedTimes | pkg/journal/state.go:10-38 | An accepted record was observed at some time and repeats it where it states its own |
| JournalOutcomes.FailureRolledBack | pkg/journal/state.go:500-518 | A run in which an applied mutation fails, is undone, and the operation is reported as rolled back |
| JournalRetries.UniformExactly | pkg/journal/state.go:338-351 | Starting a step keeps one component and phase per identity exactly when a record flagged as a retry comes while an attempt runs |
| JournalRetries.RetriesUniform | pkg/journal/operation.go:41-74 | In every run of the public calls all attempts of an identity share component and phase |
| JournalRetries.MutationsHaveOneAttempt | pkg/journal/operation.go:41-74 | In every run of the public calls a mutation step has attempt one |
| JournalRetries.FirstAttemptExactly | pkg/journal/state.go:338-346 | Among accepted records a new mutation step has attempt one exactly when it is not flagged as a retry with nothing in flight |
| JournalRetries.StrayRetry | pkg/journal/state.go:338-346 | A retry record with nothing in flight always changes the phase of the identity it reuses |
| JournalRetries.FailureIsRecorded | pkg/journal/state.go:168-176 | In every reachable operation a reported failure names phase, component, identity, attempt and reason of a failed step |
| JournalExceptions.ResealExactly | pkg/journal/state.go:231-269 | A sealed operation changes exactly when it was left for recovery and complete is asked for and possible |
| JournalExceptions.RecoveryThenComplete | pkg/journal/state.go:240-247 | A run that seals for recovery and then as complete |
| JournalExceptions.RecoveryThenRelabelled | pkg/journal/replay.go:129-142 | A run after which reopening takes the recovery outcome off a sealed operation |
| JournalExceptions.StrayRetryHappens | pkg/journal/state.go:338-346 | A run of accepted records in which one identity has two phases and a mutation is a second attempt |
| JournalExceptions.RepeatExactly | pkg/journal/state.go:41-53 | Applying an approval record twice is idempotent exactly when it has no empty capability list, else it conflicts |
| JournalExceptions.EmptyListsAreStored | pkg/journal/state.go:288-319 | Emptying a capability list of a valid approval leaves it valid |
| JournalExceptions.CloneExactly | pkg/journal/state.go:520-528 | The stored copy equals the record exactly when no capability list is empty |
| JournalExceptions.CloneTwice | pkg/journal/state.go:520-528 | Copying what is stored changes nothing, so a preview sees the approvals the journal holds |
| JournalScans.ScanInFlight | pkg/journal/state.go:398-405 | The backward loop finds the newest running step |
| JournalScans.ScanFindStep | pkg/journal/state.go:407-414 | The forward loop finds the first step with this identity and attempt |
| JournalScans.ScanLatestStep | pkg/journal/state.go:416-423 | The backward loop finds the newest step with this identity |
| JournalScans.ScanEligibleMutation | pkg/journal/state.go:444-452 | The backward loop finds the newest finished apply mutation with this identity |
| JournalScans.ScanCompensated | pkg/journal/state.go:454-461 | The loop decides whether a succeeded rollback step names this step |
| JournalScans.ScanRollbackCandidate | pkg/journal/state.go:463-470 | The loop decides whether a finished mutation with a reference is not yet compensated |
| JournalScans.ScanAllSucceeded | pkg/journal/state.go:425-442 | The loops decide whether exactly the approved components have a succeeded step in the phase |
| JournalScans.ScanCanComplete | pkg/journal/state.go:474-496 | The loops decide completion |
| JournalScans.ScanCanReportRolledBack | pkg/journal/state.go:500-518 | The loops decide whether a rollback is finished |
| JournalObject.Journal.ApplyRecord | pkg/journal/state.go:10-38 | The in-place application of a record reports and leaves exactly what the transition function says, including on rejection |
| JournalObject.Journal.StartStepOn | pkg/journal/state.go:89-132 | Starting a step in place, including the interrupted attempt it closes before validating |
| JournalObject.Journal.FinishStepOn | pkg/journal/state.go:136-189 | Finishing a step in place |
| JournalObject.Journal.SealOn | pkg/journal/state.go:231-269 | Sealing in place |
| JournalObject.Journal.ApplyOperation | pkg/journal/state.go:57-85 | Starting an operation in place, with the scan over all operations in any map order |
| JournalObject.Journal.DeepCopy | pkg/journal/operation.go:227-242 | The copy shares no operation with the journal and has the same projection |
| JournalObject.Journal.Preview | pkg/journal/operation.go:227-242 | Accepts exactly what the journal would accept, and changes nothing in the journal |
| JournalObject.Journal.EncodeFrame | pkg/journal/storage.go:132-143 | Fills the buffer with magic, big-endian length, digest and payload, within the payload limit |
| JournalObject.Journal.AppendRecord | pkg/journal/storage.go:73-128 | The exact answer, refusals before the first write in the source's order; each failure of the six steps leaves the disk, the handle and the poisoning it must |
| JournalObject.Journal.Submit | pkg/journal/operation.go:197-215 | Preview, append, apply: the exact answer and the action of the system it amounts to; both poisoning branches after a successful append are dead, a refusal changes nothing |
| JournalObject.SucceedsExactly | pkg/journal/operation.go:197-215 | A submission succeeds exactly when its record passes preview and limits and no step of the append fails |
| JournalObject.Journal.StartOperation | pkg/journal/operation.go:7-36 | Poisoned refuses; else the call gives exactly its reply: invalid input, duplicate, conflict, unknown approval and expiry each their answer with nothing changed, anything else the record submitted |
| JournalObject.Journal.BeginStep | pkg/journal/operation.go:41-74 | Gives exactly its reply: refusals and duplicates their answer, anything else the step submitted, flagged as a retry exactly when it retries a recovered attempt |
| JournalObject.Journal.FinishStep | pkg/journal/operation.go:78-112 | Gives exactly its reply: refusals and duplicates their answer, a recovered read-only attempt refused, anything else the result submitted, a recovered mutation as reconciled |
| JournalObject.Journal.Conclude | pkg/journal/operation.go:114-161 | Cancel, begin rollback and finish give exactly their reply: invalid input refused, what is done already read, anything else submitted |
| JournalObject.Journal.ActiveOperation | pkg/journal/operation.go:181-193 | In any map order, finds an unfinished operation if there is one, and under sole authority it is the only one |
| JournalObject.Journal.RecordApproval | pkg/journal/approval.go:44-65 | Gives exactly its reply: a duplicate up to the issue time is read, a differing one conflicts, expiry refuses, anything else is submitted |
| JournalObject.Journal.Perform | pkg/journal/operation.go:7-161 | Every public call gives the reply of the projection |
| JournalObject.Journal.MarkInterruptedSteps | pkg/journal/replay.go:129-142 | Relabels in any map order and gives the relabelled projection |
| JournalObject.Journal.Replay | pkg/journal/replay.go:16-125 | The loop over the log, truncation and head repair answer exactly as opening does; a storage failure of the read, the truncation or the repair leaves the old disk or the repaired one |
| JournalService.ServeOne | pkg/journal/operation.go:7-161 | A public call with any fault is exactly the action its reply comes to, or none, and has exactly that answer |
| JournalService.RestartOne | pkg/journal/replay.go:16-125 | A restart with any trouble is exactly the opening it comes to, and has exactly its answer |
| JournalService.Lead | pkg/journal/storage.go:73-187 | Any life of the object, calls with faults and restarts with troubles, leaves the disk and the handle, and gives the answers, of the run of the whole system that the requests are; what it holds is reachable, attempts are uniform and mutations have one |
| JournalService.LifeIssued | pkg/journal/operation.go:7-161 | Every record of such a run was issued |
| JournalService.SuccessSurvives | pkg/journal/storage.go:73-128 | When a call submits a record and answers success, then after any further requests every successful opening of the disk answers records that hold it at its place |
| LogFrames.BigEndianInverse | pkg/journal/storage.go:132-143 | Writing a read length gives back its four bytes |
| LogFrames.FrameAt | pkg/journal/replay.go:50-60 | A whole piece read at an offset is the frame of its record |
| LogFrames.FrameBytes | pkg/journal/storage.go:132-143 | A frame is the magic text, the length with its highest byte first, the digest and the payload |
| LogFrames.ReadBack | pkg/journal/replay.go:31-77 | Reading at the start of a frame gives back the record it was made from |
| LogFrames.ReadTorn | pkg/journal/replay.go:31-56 | A cut frame reads as torn, except when cut exactly behind its header, which reads as corrupt |
| LogRecovery.ScanCommitted | pkg/journal/replay.go:31-93 | The replay loop inverts the concatenation of frames: it passes over all committed records and stands behind the last |
| LogRecovery.CommittedNext | pkg/journal/storage.go:73-128 | A record that fits the chain and is accepted commits after the others |
| LogCrash.OpenSettled | pkg/journal/replay.go:94-109 | A settled log opens to exactly its records |
| LogCrash.OpenTorn | pkg/journal/replay.go:31-125 | A torn append opens to the records before it, the whole frame to one more with the head repaired, the cut behind the header to an error |
| LogCrash.CrashSafety | pkg/journal/storage.go:73-187 | After any run of appends and openings stopped anywhere, opening recovers the durable records or those and the interrupted one; it errs exactly for the cut behind a header, never for its own limits |
| LogCrash.TornForever | pkg/journal/replay.go:50-56 | After any append that stops exactly behind the header of its frame, every opening is refused as corrupt and nothing ever changes again |
| LogCrash.SuccessIsDurable | pkg/journal/storage.go:114-128 | After an append that returned success and whatever follows, every successful opening answers records that hold this one at its place |
| LogCrash.AppendsExactly | pkg/journal/storage.go:73-128 | After any run, an event is appended exactly when it is lawful now and within the limits on records, payload and log; it then becomes the next durable record, and a refused one changes nothing |
| LogRuns.RunBehind | pkg/journal/replay.go:16-142 | Behind every run of the system is a run of the journal with the same records and projection, of issued records if they were |
| LogRuns.HandleReachable | pkg/journal/replay.go:16-142 | After any crashes the projection of an open handle is reachable, so all that is proved of reachable ones holds |
| LogRuns.HandleUniform | pkg/journal/operation.go:41-74 | After any crashes, if all records were issued, attempts are uniform and mutations have one |
| LogCrash.RunKeeps | pkg/journal/storage.go:73-187 | Every run keeps disk, handle and durable records coherent |
| LogChain.OpenSound | pkg/journal/replay.go:16-125 | An accepted log is the frames of a committed chain through the checkpoint and at most a torn frame, within the limits on bytes and records; the opened state is its relabelled replay |
| LogChain.CheckpointPinsLog | pkg/journal/replay.go:57-93 | Two logs accepted against one checkpoint, without a digest collision between their records, agree byte for byte on all committed frames |
| LogChain.ChainsAgree | pkg/journal/replay.go:75-86 | Equal digests force equal records all the way back |
| Graphs.OrderIsLeast | pkg/stack/validate.go:110-142 | The greedy order is the lexicographically least topological order |
| Graphs.OrderUnique | pkg/stack/validate.go:110-142 | There is one complete greedy order at most |
| Graphs.OrderIsTopological | pkg/stack/validate.go:110-142 | A complete greedy order lists every node once, after its dependencies |
| Graphs.OrderOrCycle | pkg/stack/validate.go:139-141 | A closed graph has a complete greedy order exactly when it has no cycle |
| Graphs.StuckIsCyclic | pkg/stack/validate.go:139-141 | When nothing is ready and something is left, there is a cycle |
| Graphs.CycleHasNoOrder | pkg/stack/validate.go:139-141 | A cyclic graph has no topological order |
| Sorting.InsertSorts | pkg/stack/validate.go:144-154 | Insertion keeps a sorted list sorted |
| Sorting.SortSorts | pkg/stack/plan.go:163-170 | Sorting gives a sorted permutation |
| Planner.InsertSorted | pkg/stack/validate.go:144-154 | The loop inserts before the first entry that is not smaller |
| Planner.ValidateUnique | pkg/stack/validate.go:93-108 | The loop accepts exactly the short lists of valid, distinct values |
| Planner.CountDependencies | pkg/stack/validate.go:111-118 | The loops give every node its number of dependencies and exactly its dependents |
| Planner.FirstReady | pkg/stack/validate.go:120-125 | Whatever order the map yields its keys in, the result is the sorted list of the nodes without dependencies |
| Planner.TellChildren | pkg/stack/validate.go:131-136 | After a node is taken, the counts are right again and the ready list is again exactly the ready nodes |
| Planner.DependencyOrder | pkg/stack/validate.go:110-142 | Returns the greedy order; fails exactly when the dependencies are cyclic |
| Planner.OrderIgnoresListing | pkg/stack/validate.go:110-142 | The order depends neither on component order nor on dependency order |
| Planner.OrderableExactly | pkg/stack/validate.go:139-141 | Declared dependencies can be ordered exactly when they have no cycle |
| PlanBuilder.ValidateManifest | pkg/stack/validate.go:24-56 | The loops accept exactly the valid manifests |
| PlanBuilder.ValidateComponent | pkg/stack/validate.go:58-72 | Accepts exactly the valid components |
| PlanBuilder.NormalizeManifest | pkg/stack/plan.go:140-161 | Gives the normal form |
| PlanBuilder.BuildPlan | pkg/stack/plan.go:10-53 | Builds the plan of the normal form in dependency order, or refuses exactly the invalid manifests |
| PlanBuilder.ValidatePlan | pkg/stack/plan.go:66-138 | The loops accept exactly the valid plans |
| PlanBuilder.CollectSteps | pkg/stack/plan.go:76-107 | Steps are in place and valid and no identity repeats; otherwise refuses |
| PlanBuilder.CheckEarlier | pkg/stack/plan.go:108-115 | Accepts exactly when dependencies name earlier steps |
| StackTheory.BuildIgnoresOrder | pkg/stack/plan.go:140-161 | Manifests equal up to list order are both refused or give the same plan |
| StackTheory.BuiltIsValid | pkg/stack/plan.go:66-138 | Every built plan is accepted by the validator |
| StackTheory.ValidIsBuilt | pkg/stack/plan.go:66-138 | Every accepted plan is exactly what the builder makes of the manifest it stands for |
| StackTheory.ValidatorIsExact | pkg/stack/plan.go:10-138 | The validator accepts exactly the image of the builder |
| StackTheory.SortByIDUnique | pkg/stack/plan.go:157-159 | Sorting by identity does not depend on the order before |
| StackTheory.SameValidity | pkg/stack/validate.go:24-56 | Validity of a manifest does not depend on list order |
| PlanContents.BuildsExactly | pkg/stack/validate.go:24-72 | A plan is built exactly of a manifest of version 1 with a valid name and 1 to 64 components, of distinct valid identities, whose fields are valid, whose lists hold at most 64 distinct valid values, and whose dependencies are other components and form no cycle |
| PlanContents.EveryGraphIsBuilt | pkg/stack/plan.go:10-53 | Every acyclic graph over at most 64 identities, each with at most 64 dependencies, is the graph of a manifest that is built |
| PlanContents.BuiltShows | pkg/stack/plan.go:10-53 | The plan shows each component once, field by field with sorted lists, numbered from one, dependencies first and the least identity wherever there is a choice, and carries the normal form of the manifest with both digests |
| StringOrder.LessExactly | pkg/stack/validate.go:144-154 | One text is smaller than another exactly when it ends first or the first different character decides |
| PatternShapes.SlugExactly | pkg/stack/validate.go:17-22 | A slug is alphanumeric words joined by single hyphens |
| PatternShapes.IDExactly | pkg/journal/validate.go:18 | An identity is a slug of at most 80 characters |
| PatternShapes.CapabilityExactly | pkg/stack/validate.go:78-80 | A capability is slugs joined by single dots, at most 160 characters |
| PatternShapes.AdapterExactly | pkg/stack/validate.go:17-22 | An adapter is the prefix, a slug and a version without leading zero |
| PatternShapes.DigestExactly | pkg/journal/validate.go:20 | A digest is its prefix and 64 lower-case hexadecimal digits |
| PatternShapes.ReasonExactly | pkg/journal/validate.go:22 | A reason begins and ends alphanumeric, with at most 78 characters between, underscores among them |
| Approvals.KeyOrder | pkg/journal/validate.go:109 | Joined keys are ordered as the pairs they join, first by component, then by slot |
| Approvals.KeyInjective | pkg/journal/validate.go:109 | Joined keys of slugs are equal only for equal pairs |
| Approvals.SecretRevisionsMatchPlan | pkg/journal/approval.go:88-105 | The loops compare the keys with the sorted keys of the plan |
| Approvals.ValidateApprovalInput | pkg/journal/validate.go:28-44 | The loop accepts exactly the well-formed requests in strict key order |
| Approvals.BindingExact | pkg/journal/approval.go:88-105 | Revisions pass both checks exactly when they are well formed, strictly ordered by component and slot, and bind just the pairs the plan declares |
| Approvals.ProjectionExact | pkg/journal/state.go:288-319 | What is projected from a valid plan with bound secrets passes stored validation exactly when every step names a capability |
| Approvals.RequestExactly | pkg/journal/validate.go:28-44 | For a valid plan, a request is acceptable exactly when it names itself, actor, authority and end, and binds just the declared slots in order |
| Approvals.NeverTooMany | pkg/journal/validate.go:28-44 | Bindings that match a valid plan are within the limit on their number |
| ApprovalCalls.RecordApproval | pkg/journal/approval.go:13-66 | Poisoned refuses, unacceptable requests are invalid input with nothing changed, and acceptable ones get exactly the reply to their projection: read, conflict, expired, or submitted. After a success the journal holds an approval that says of the plan, step by step, and of the request just what they say |
| ApprovalExceptions.UnapprovablePlan | pkg/journal/approval.go:36-42 | A valid plan, built from a valid manifest, whose projection is refused whatever is requested |
| Containers.Engine.Run | internal/adapters/postgresql/actions.go:362-367 | A command acts fully or not at all, and an error does not tell which |
| Postgresql.Adapter.StopPreviousContainer | internal/adapters/postgresql/actions.go:62-82 | From every place of the chain: at most one link and the right answer, whatever the command does; off it too, nothing else is touched and the previous container is not lost |
| Postgresql.Adapter.PreservePreviousContainer | internal/adapters/postgresql/actions.go:84-101 | The same for moving the previous container aside |
| Postgresql.Adapter.CreateCandidateContainer | internal/adapters/postgresql/actions.go:103-120 | The same for creating the candidate |
| Postgresql.Adapter.StartCandidateContainer | internal/adapters/postgresql/actions.go:122-133 | The same for starting the candidate |
| Postgresql.Adapter.StopCandidateContainer | internal/adapters/postgresql/actions.go:135-146 | The same for stopping the candidate |
| Postgresql.Adapter.RemoveCandidateContainer | internal/adapters/postgresql/actions.go:148-162 | The same for removing the candidate |
| Postgresql.Adapter.RestorePreviousContainer | internal/adapters/postgresql/actions.go:164-181 | The same for moving the previous container back |
| Postgresql.Adapter.RestartPreviousContainer | internal/adapters/postgresql/actions.go:183-203 | The same for restarting it if it ran |
| Postgresql.Adapter.Verify | internal/adapters/postgresql/actions.go:205-257 | On the chain the candidate verifies exactly at its end and the previous state exactly at its start |
| Postgresql.PreflightStarts | internal/adapters/postgresql/preflight.go:49-79 | Preflight leaves the world at the first place of the chain |
| Postgresql.OneLink | internal/adapters/postgresql/actions.go:62-203 | No call moves more than one link, or before the preflight place |
| Postgresql.RunsStayOnChain | internal/adapters/postgresql/actions.go:62-203 | No run of calls with unknown outcomes leaves the chain |
| Postgresql.RollbackReturns | internal/adapters/postgresql/actions.go:135-203 | From every place the reverse calls in order, refusals ignored, end at the preflight place; the forward calls end at the candidate |
| Postgresql.RollbackConverges | internal/adapters/postgresql/actions.go:135-203 | After any run the reverse calls give back exactly the preflight world, running flags included |
| Postgresql.ReplaceAndRollBack | internal/adapters/postgresql/actions.go:62-203 | Refused exactly as preflight refuses; otherwise any calls with any outcomes are answered as the chain says and lead to their place on it, and the reverse calls then leave all containers as they were |
| Postgresql.Replace | internal/adapters/postgresql/actions.go:62-133 | Refused exactly when the rollback name is taken or a finding speaks against the container there; else, without trouble, the requested candidate runs under the name and verifies, what was there waits stopped under the rollback name, and nothing else is touched |
| Postgresql.PreflightRefuses | internal/adapters/postgresql/preflight.go:49-79 | Preflight refuses exactly when the rollback name is taken, or there is a container and a finding is against it |
| Postgresql.AskingAgain | internal/adapters/postgresql/actions.go:62-203 | After a command with an unknown outcome, the same call without trouble ends where the command was to end, and succeeds |
| Authentik.Adapter.StopPreviousContainer | internal/adapters/authentik/actions.go:51-75 | From every place of the chain and for both roles: at most one link and the right answer; off it too, nothing else is touched and neither previous container is lost |
| Authentik.Adapter.PreservePreviousContainer | internal/adapters/authentik/actions.go:77-101 | The same for moving a previous container aside |
| Authentik.Adapter.CreateCandidateContainer | internal/adapters/authentik/actions.go:103-127 | The same for creating a candidate |
| Authentik.Adapter.StartCandidateContainer | internal/adapters/authentik/actions.go:129-152 | The same for starting a candidate, the worker only beside a healthy server |
| Authentik.Adapter.StopCandidateContainer | internal/adapters/authentik/actions.go:154-168 | The same for stopping a candidate, the worker first |
| Authentik.Adapter.RemoveCandidateContainer | internal/adapters/authentik/actions.go:170-192 | The same for removing a candidate |
| Authentik.Adapter.RestorePreviousContainer | internal/adapters/authentik/actions.go:194-218 | The same for moving a previous container back |
| Authentik.Adapter.RestartPreviousContainer | internal/adapters/authentik/actions.go:220-249 | The same for restarting a previous container that ran |
| Authentik.Adapter.Verify | internal/adapters/authentik/actions.go:315-373 | On the chain the candidate pair verifies exactly at its end and the previous state exactly at its start |
| Authentik.Adapter.VerifyRole | internal/adapters/authentik/actions.go:251-313 | On the chain one role verifies exactly where its candidate runs, or where its previous container is back as it was |
| Authentik.ChainSafety | internal/adapters/authentik/actions.go:51-249 | In every world on the chain a running worker has its server running beside it, both previous containers exist, and generations never share the primaries |
| Authentik.Adapter.PerformAll | internal/adapters/authentik/actions.go:51-249 | After any role calls with any outcomes the answers are those of the chain, the world is on it and safe, and nothing else was touched |
| Authentik.PreflightStarts | internal/adapters/authentik/preflight.go:48-93 | Preflight records coherent metadata and distinct names, and leaves the world at the first place |
| Authentik.NamesForDistinct | internal/adapters/authentik/preflight.go:105-111 | The four derived names are distinct |
| Authentik.OneLink | internal/adapters/authentik/actions.go:51-249 | No role call moves more than one link, or before the preflight place |
| Authentik.RunsStayOnChain | internal/adapters/authentik/actions.go:51-249 | No run of role calls with unknown outcomes leaves the chain |
| Authentik.RollbackReturns | internal/adapters/authentik/actions.go:154-249 | From every place the reverse role calls in order, refusals ignored, end at the preflight place |
| Authentik.ReplaceArrives | internal/adapters/authentik/actions.go:51-152 | Without trouble the forward role calls end with the candidate pair running |
| Authentik.RollbackConverges | internal/adapters/authentik/actions.go:154-249 | After any run the reverse calls give back exactly the preflight world |
| Authentik.ReplaceAndRollBack | internal/adapters/authentik/actions.go:51-249 | Refused exactly as preflight refuses; otherwise any role calls with any outcomes are answered as the chain says and lead to their place on it, and the reverse calls then leave all containers as they were |
| Authentik.Replace | internal/adapters/authentik/actions.go:51-152 | Refused exactly as preflight refuses; else, without trouble, the requested server and worker run under their names and verify, the pair that was there waits stopped under the rollback names, and nothing else is touched |
| Authentik.PreflightRefuses | internal/adapters/authentik/preflight.go:48-93 | Preflight refuses exactly a taken rollback name, half a pair, a worker running alone, or a finding against the pair |
| Authentik.AskingAgain | internal/adapters/authentik/actions.go:51-249 | After a command with an unknown outcome, the same call without trouble ends where the command was to end, and succeeds |
| Authentik.HealthyFirst | internal/adapters/authentik/actions.go:129-152 | With the server found unhealthy, no call makes a worker run that did not |
| Caddy.Adapter.StageTransaction | internal/adapters/caddy/transaction.go:27-103 | Stopped anywhere, staging leaves a directory that is complete or does not load, under its temporary name until the rename; a different preparation, or one over remains, is refused with nothing changed |
| Caddy.Adapter.Reconcile | internal/adapters/caddy/transaction.go:108-142 | Promotes exactly a complete temporary transaction |
| Caddy.Adapter.Rollback | internal/adapters/caddy/transaction.go:148-194 | Removes a committed transaction exactly at the baseline, which it must be able to read, and a temporary one always |
| Caddy.Adapter.ReplaceTarget | internal/adapters/caddy/actions.go:236-281 | Stopped anywhere, the target holds the old bytes or all of the new ones, and the temporary file a prefix |
| Caddy.Adapter.InstallCandidate | internal/adapters/caddy/actions.go:76-108 | From every safe shape, with every stop: the effect on the world and the answer |
| Caddy.Adapter.RestorePrevious | internal/adapters/caddy/actions.go:110-141 | The same, residue of an interrupted replacement removed first |
| Caddy.Adapter.ActivateConfiguration | internal/adapters/caddy/actions.go:151-210 | The same for both directions of activation, with reads of the running configuration that may fail before and after the reload |
| Caddy.Adapter.Verify | internal/adapters/caddy/actions.go:212-234 | Succeeds exactly when the running configuration can be read, the transaction is in place, no residue is left and both domains are seen as desired |
| Caddy.StaysSafe | internal/adapters/caddy/transaction.go:148-194 | Every call, stopped anywhere, keeps the transaction in place while file or runtime is off the baseline |
| Caddy.RunsStaySafe | internal/adapters/caddy/actions.go:76-321 | So does every run of calls |
| Caddy.PreflightStarts | internal/adapters/caddy/preflight.go:13-114 | Preflight records digests that describe the world it saw |
| Caddy.RecoveryReturns | internal/adapters/caddy/actions.go:110-149 | With distinct digests, restoring and reactivating makes the previous state verify from every safe shape with the transaction in place, and the transaction can then be removed |
| Caddy.RecoveryIdle | internal/adapters/caddy/actions.go:354-359 | Without the transaction in place the baseline was never left, and recovery changes nothing |
| Caddy.PreviousVerifiesExactly | internal/adapters/caddy/actions.go:66-74 | The previous state verifies exactly on the baseline with distinct digests in both domains |
| Caddy.CandidateFirst | internal/adapters/caddy/actions.go:66-74 | "Previous" can be reported exactly when the digests differ |
| Caddy.EqualIsAccepted | internal/adapters/caddy/preflight.go:13-114 | Preflight accepts the configuration in place as candidate, and both digests then coincide |
| Caddy.RemainsForever | internal/adapters/caddy/transaction.go:241-263 | Where a file of the committed transaction is gone, no sequence of calls changes anything |
| Caddy.RemainsHappens | internal/adapters/caddy/transaction.go:196-208 | Staging and a removal that is stopped lead there |
| Caddy.RemovalResumesExactly | internal/adapters/caddy/transaction.go:196-208 | From every safe baseline, a stopped removal of the committed transaction can be finished by some calls exactly when no file is gone |
| Caddy.TemporaryRemovalResumes | internal/adapters/caddy/transaction.go:183-193 | A stopped removal under the temporary name can always be finished, and what is left be promoted exactly when it is complete |
| Caddy.ChangeAndRecover | internal/adapters/caddy/actions.go:76-321 | Refused exactly as preflight refuses; otherwise any calls, stopped anywhere, are answered as the shapes say and lead to a safe one, and with distinct digests recovery brings back the previous bytes and runtime digest |
| Caddy.Change | internal/adapters/caddy/actions.go:76-210 | Refused exactly as preflight refuses; else, without trouble, staging, installing and activating verify, the target holds the requested bytes unless its digest was theirs already, and the server runs what has the digest of what they adapt to |
| Caddy.PreflightRefuses | internal/adapters/caddy/preflight.go:13-114 | Preflight refuses exactly an unusable or unexpected candidate, an unusable target, or a server that runs something else than the target |
| Caddy.PreparedFrom | internal/adapters/caddy/preflight.go:13-114 | The preparation keeps the target as previous, the requested bytes as candidate, and the digests of both and of what they adapt to |
| Caddy.LoadExactly | internal/adapters/caddy/transaction.go:241-292 | A directory loads exactly when it is complete, for this operation and binding, with usable files of the recorded digests |

## Left out

- The public site, the command line, templates: plumbing without the state modelled here.
- File modes, ownership, links, locks, `Create` and `Open` directory checks, binary hashing, `Close`: operating-system calls.
- JSON syntax and strict decoding: an abstract encode/decode pair; a decoding failure and a malformed shape are both reported as corrupt.
- `schema_version` of journal records, and the per-kind shape checks beyond those the transitions rely on: easy members.
- The textual form of chain digests: the model keeps the 32 bytes.
- Artifact source parsing (`validArtifactSource`): a predicate parameter.
- Text as bytes: strings are sequences of characters, and lengths count characters; the patterns admit ASCII only.
- `Observe` of the adapters and the `Operation` and `Approval` lookups of the journal: they only report state.
- Docker arguments, inspection and health probes: their results are inputs.
- Actors that change containers or files from outside, and two adapter operations interleaved on one component: the code does not promise conservation there.
- The order of directory entries after a power loss between a rename and its directory sync on the Caddy side: a rename counts as done when it returns.
- PlanBuilder.NormalizeManifest: sorts by insertion, because the source's library sort is determined only where identities are distinct, which both callers have checked.
- JournalObject.Journal.DeepCopy: takes the stored approvals over as they are instead of copying them, which gives the same values (JournalExceptions.CloneTwice).
- JournalObject.Journal.RecordApproval: takes the projection as its argument; the checks before it are in ApprovalCalls.RecordApproval.
- JournalService.OpenJournal: an object whose opening failed counts as poisoned, where the source hands out none.
