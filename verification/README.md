# Verified model of the durable workflow runner

This project models the parts of the runner whose correctness depends on every
history of small committed transactions: crashes between commits, re-runs, and
operator decisions in any order. It also models the smaller cores with a proof of
their own. `dafny verify dfyconfig.toml` checks all of it.

Each core has three layers:

- a **specification**, in which a call is a function from state to state and its
  `dies` / `fate` / `fault` argument says after which commit the process stops;
- a **store**: a class with the source's tables or fields, whose methods change
  them statement by statement, with the source's loops and early exits, and whose
  `ensures` equates the new state and the outcome with the specification;
- **theorems**: lemmas over the specification, mostly over whole histories.

## What is modelled

**Improvement proposals** (`Git`, `Proposals`, `ProposalProofs`,
`ProposalTheorems`, `ProposalOutcomes`, `ProposalStale`, `ProposalClosed`,
`ProposalLanding`, `ProposalOnce`, `ProposalUnrecorded`, `ProposalWitness`,
`ProposalStore`). Proposal rows, approval rows, artifacts and steps, next to a
repository with a commit graph, trees, branches and worktrees.
`merge` never reads a proposal's status, so its safety is an invariant over
digests, verdicts, ancestry and worktrees. Five findings are theorems:

- A closed row is closed for good exactly when its worktree is gone
  (`ClosedForGoodExactly`), over all later histories, crashes included. A reject
  that dies after closing its row but before it removes the worktree leaves a
  rejected proposal that still merges (`RejectedStillMerges` says it of every state,
  `RejectedProposalMerges` gives a history); `MergeSafety` says of every merge
  whether it was one of those.
- A merge that reached its target and died there does not pass again: the target has
  moved (`LandedCannotMergeAgain`). If it died before its row was closed it is never
  recorded: while the target only moves forward and the worktree stays put, no merge
  passes, and `prepare` finds an empty difference (`LandedIsNeverRecorded`).
- `merge` goes into whatever branch is checked out and merges whatever the candidate
  branch points at. `LandsExactlyWhenAttended` says when the target branch really
  receives the reviewed commit, and `UnattendedMergeSucceeds` gives a merge that
  succeeds without moving its target.
- A second `prepare` of a proposal leaves its approval unmatched. The approval comes
  back into force exactly when git still says what was approved: then marking the
  proposal ready with the approved verdict and validations restores it
  (`RePrepareVoidsApproval`).
- At most one proposal for a target branch and base is ever merged, if every merge
  advances its target (checked out, and the candidate branch has something the base
  has not: `AdvancesExactly`) and the branch otherwise only moves forward. Without
  that two can be (`TwoMergedAtOneBase`).

**Durable execution** (`Durable`, `DurableProofs`, `DurableTheorems`,
`DurableReset`, `DurableStore`). Steps, each with its node, runs, every commit of
`run_step` and `run_workflow`, the recovery scan and the reset. Any number of crashed or failed walks followed by one
that completes gives what one uninterrupted walk gives. Finding: the reset that a
resume begins with is aborted by its foreign keys exactly when a step that has a
start event is in flight or of a node without success (`ResetGoesThroughExactly`,
`LostBodyBlocksReset`; `LostBody` is a history), whatever other runs the database
holds. Where no two steps share a node that is every open step that was ever started
(`EveryLostBodyBlocks`); a failed step that shares its node with a succeeded one does
not stand in the way (`SharedNodeResets`).

**Governed actions** (`ApprovalTable`, `CapabilityGuard`, `MachineAction`,
`Governed`, `GovernedProofs`, `GovernedTheorems`, `GovernedOutcomes`,
`GovernedWitness`, `GovernedStore`). The machine, agent and approval-node executors
and the operator share one approvals table. Which call starts a body, which is
refused and what each leaves is settled exactly; a SUCCEEDED step never runs again
(`SucceededForGood`), and what is approved goes ahead (`ApprovedMachineRuns`). Where code and comments differ the model follows the code:

- A row stored without a risk class is treated as R2 by the voice rule only if the
  caller claims nothing: a caller's claim is believed (`VoiceApprovesExactly`).
  Machine and agent rows always store a class, so the voice result is unaffected.
- An approval node never compares its digest again (`GatePassesExactly`,
  `GatePassesChangedAction`).
- An agent node run without a capability consults nothing, a rejected row included
  (`AgentBodyStartsExactly`, `AgentRunsAfterRejection`). `RejectionIsFinal` says
  exactly that exception.
- A machine step that was approved and then crashed while RUNNING never runs again
  (`ApprovedThenCrashedNeverRuns`, `ApprovedMachineStepStuck`); the agent variant
  does (`ApprovedAgentRuns`).
- An agent action that was approved runs whatever the node's allowlist says by then:
  the digest does not bind the list (`AgentApprovalBinds`, `AgentSafety`).

**Registry** (`Registry`, `RegistryTheorems`, `RegistryStore`). Lookup over the two
roots, the index beside it, publish, trust and reindex. The proof work is in the
loops: `IndexKind` and `ReindexAll` walk kinds and roots in the source's order, in any
listing order, and are proved equal to a closed form, reference by reference
(`ReindexedRow`), from which the theorems about reindexing follow. An interrupted
publish can leave the old row beside other content, a partly written object
(`PartlyWritten`), or, for a skill, no object at all; a skill whose `SKILL.md` is not
there yet is missing just the same, and both fall through to `config`
(`RemovedDirectory`). A first reindex gives an object that is in both roots the trust
"trusted" although its row then names `data` (`FirstTrust`).

**JSON-RPC** (`Rpc`, `RpcTheorems`, `RpcFates`, `RpcServer`, `RpcClient`). The
TypeScript client and the Python server joined by two channels, with lost requests, stray output lines,
time-outs, exits and transport errors. The server also answers a request without
an id, which section 4.1 of the JSON-RPC 2.0 specification excludes; the client
drops such answers.

**Voice sessions** (`Voice`, `VoiceTheorems`, `VoiceTurns`, `VoiceStore`). The
state is read back from the newest entry of kind "voice_state". An interruption whose payload carries
that kind overrides it (`InterruptionKeepsState` gives the exact condition), and a
death between the two commits loses the mirrored event.

**Secrets** (`EnvFile`, `EnvTheorems`, `KeyRotation`). The `.env` reader and editor
on the text of the file, and key rotation through it. Rotation keeps every secret readable exactly
when no line below the edited one defines the key again; a process that dies
between the two writes leaves all of them unreadable (`CrashLosesSecrets`).

**Directory digest** (`DirectoryDigest`). Faithful for paths without a newline; with
one, two different directories share a digest under every hash
(`NewlinePathsCollide`).

**Speech segments** (`SpeechSegments`). Both loops of the voice-activity detector, in
chunk numbers.

## Idealisations

- A digest is its payload under a constructor, so it is collision-free by
  construction; `DirectoryDigest` instead takes the hash as a parameter and assumes
  it collision-free on the inputs at hand.
- Ciphertexts open under the key that made them and under no other. Which texts
  decode to which key is a parameter.
- Table rows are kept in insertion order and a row's position is its id.
- A `SELECT` followed by an `UPDATE` or `INSERT` of the same call is one step, and
  writing an event does not raise.
- `remove_worktree` always succeeds, and a worktree is only ever made for a new run
  id. Others may change the repository between calls in any way that keeps its
  history and makes no worktree for a run that has none.
- What step bodies, method handlers, models and git's three-way merge answer is a
  parameter of each call.

## Model
| member | source | states |
|---|---|---|
| ProposalTheorems.MergeSafety | backend/src/awf/improvement/proposals.py:414-451 | Over every history, crashes included, a merge that gets as far as git has a passed verdict and a passing test result for exactly its candidate commit, and is of a proposal under review if and only if that is not a closed one with its worktree left behind |
| ProposalTheorems.MergeStatusExactly | backend/src/awf/improvement/proposals.py:414-427 | In every reachable state, crashes included, a call that passes all checks of `merge` is for a proposal under review if and only if that row is not closed: its worktree is there, or the checks would have failed, so a closed row that passes is one whose worktree was left behind. `TidyHistoriesLeaveNothing` says which histories leave none |
| ProposalTheorems.ApprovedTupleMerges | backend/src/awf/improvement/proposals.py:72-89 | Whatever happens after an approval row exists, a merge under it succeeds only while target, base, candidate, diff digest, verdict and validations are the ones the row was created with, and only if it was approved |
| ProposalClosed.ClosedForEver | backend/src/awf/improvement/proposals.py:454-467 | Once merged or rejected, and its worktree gone, no later history, crashes included, changes the row in any field or lets a merge of it pass its checks, although `prepare` resets rows whatever their status |
| ProposalClosed.ClosedForGoodExactly | backend/src/awf/improvement/proposals.py:158-160 | A closed row keeps every field in all later histories if and only if its worktree was not left behind |
| ProposalClosed.LeftoverReopens | backend/src/awf/improvement/proposals.py:204-226 | A closed proposal whose worktree is still there has a history that makes it a draft again |
| ProposalTheorems.TidyHistoriesLeaveNothing | backend/src/awf/improvement/proposals.py:448-466 | When no close dies before its clean-up, no closed proposal ever keeps its worktree |
| ProposalTheorems.RejectedStillMerges | backend/src/awf/improvement/proposals.py:464-466 | If a reject dies before it removes the worktree, a merge that would have passed still passes, now for a rejected proposal |
| ProposalWitness.RejectedProposalMerges | backend/src/awf/improvement/proposals.py:396-451 | A history in which a rejected proposal merges into its attended target |
| ProposalStale.StaleApprovalIsUseless | backend/src/awf/improvement/proposals.py:364-369 | A proposal whose approval row no longer matches can neither be requested nor merged, under that row or any other |
| ProposalStale.RePrepareVoidsApproval | backend/src/awf/improvement/proposals.py:204-226 | A successful `prepare` leaves an approval row unmatched; marking the proposal ready can make it match again if and only if git still says what was approved: the target checked out, the merge base, and the worktree's commit, branch and difference |
| ProposalProofs.RunKeeps | backend/src/awf/improvement/proposals.py:151-467 | Every history keeps the invariant tying rows, digests, verdicts, ancestry and worktrees together; commits, artifacts and decided approvals only grow |
| ProposalOutcomes.PrepareExactly | backend/src/awf/improvement/proposals.py:151-226 | `prepare` goes through exactly for a finished run with a step and a worktree whose commit differs from its merge base with the checked-out branch; the run's row, new or written over, then holds what git says now (target, base, candidate branch, candidate, difference) as a draft without verdict or validations, and nothing of the old row but its merge commit; a failure changes nothing |
| ProposalOutcomes.MarkReadyExactly | backend/src/awf/improvement/proposals.py:320-346 | A proposal is marked ready exactly if it is open and the artifact is a passed verdict of its run; only status, verdict and validations of its row change |
| ProposalOutcomes.RequestExactly | backend/src/awf/improvement/proposals.py:349-393 | In every reachable store a merge is asked for exactly if the proposal is under review, its identities stand, its candidate is tested and its approval row, if any, is over its present tuple; an old row is given again, a new one is pending, of class R2, and its step waits |
| ProposalOutcomes.TestedExactly | backend/src/awf/improvement/proposals.py:263-278 | A test result counts if and only if some passing one is for this very commit with no garbled one newer; reading stops with an error exactly when none counts and one is garbled |
| ProposalOutcomes.MergeExactly | backend/src/awf/improvement/proposals.py:414-451 | In every reachable store a merge fails exactly if it is not an approved, standing, tested tuple or git cannot merge, and then changes nothing; otherwise row, merge commit, step and worktree are what the place of death leaves |
| ProposalOutcomes.GitMergesExactly | backend/src/awf/isolation/worktree.py:74-87 | On a branch or on a detached HEAD: nothing if the other side is contained, and otherwise one new commit of both sides there, with the fast-forward or three-way tree, and no other branch moved |
| ProposalOutcomes.RejectExactly | backend/src/awf/improvement/proposals.py:454-467 | A proposal is rejected exactly if it is open; only its status changes, and the worktree goes if the process lives |
| ProposalOutcomes.WorktreeRoundTrip | backend/src/awf/isolation/worktree.py:32-38 | A worktree is made, on its own branch at HEAD, exactly if the run has neither; removing it gives the repository back |
| ProposalLanding.MergeLandsReviewed | backend/src/awf/isolation/worktree.py:74-87 | With the target checked out and the candidate branch unmoved, a merge whose checks pass cannot conflict; the target ends in a commit of base and candidate, with the candidate's tree, which is the base with the reviewed patch applied |
| ProposalLanding.LandsExactlyWhenAttended | backend/src/awf/improvement/proposals.py:428-433 | A successful merge lands on the target branch as a merge of base and candidate if and only if that branch is checked out and the candidate branch is where it was reviewed |
| ProposalWitness.UnattendedMergeSucceeds | backend/src/awf/improvement/proposals.py:428-438 | A history in which a merge succeeds and its target branch stays where it was |
| ProposalOnce.AdvancesExactly | backend/src/awf/isolation/worktree.py:74-87 | A merge that gets past git, wherever it dies after it, leaves the target past the base if and only if the target is checked out and the candidate branch exists and has something the base has not |
| ProposalUnrecorded.LandedCannotMergeAgain | backend/src/awf/improvement/proposals.py:400-402 | A merge that advanced its target and died, before its row was closed or before its clean-up, does not pass its checks again: the target moved |
| ProposalUnrecorded.LandedIsNeverRecorded | backend/src/awf/improvement/proposals.py:428-446 | After an attended merge that dies between git and its row, in every later history in which the target stays checked out and only moves forward and the worktree stays at the candidate, the row is never recorded as merged, no merge of it passes, and no `prepare` of its run goes through |
| ProposalUnrecorded.ContainedHasEmptyDiff | backend/src/awf/improvement/proposals.py:162-170 | Once the target contains what the worktree is at, `prepare` finds nothing to propose and changes nothing: the only merge base git can answer is the candidate itself |
| ProposalOnce.AtMostOneMerged | backend/src/awf/improvement/proposals.py:400-405 | Of all proposals sharing target and base, at most one is ever merged, over every history whose merges advance their target and whose merged-to branches only move forward |
| ProposalWitness.TwoMergedAtOneBase | backend/src/awf/improvement/proposals.py:414-451 | A history that ends with two proposals merged at one target and base |
| Git.DiffRoundTrip | backend/src/awf/improvement/diff.py:36-37 | A diff of modes and bytes applied to its base gives the candidate back, and is empty exactly when the trees are equal |
| Git.AncestorStable | backend/src/awf/improvement/diff.py:32-33 | Ancestry between two commits is the same in every larger graph |
| ProposalStore.Repository.PrepareRun | backend/src/awf/improvement/proposals.py:151-226 | Exactly when the run is prepared, and that its row is then what git says now, for a first and for a second `prepare`; no other row changes, and the artifact is written first |
| ProposalStore.Repository.MarkProposalReady | backend/src/awf/improvement/proposals.py:320-346 | Exactly when the row is marked, and the row it then is |
| ProposalStore.Repository.RequestMergeOf | backend/src/awf/improvement/proposals.py:349-393 | A request granted from a reachable state is for a vouched proposal whose identities stand, under its only approval row, old or new |
| ProposalStore.Repository.RecheckIdentities | backend/src/awf/improvement/proposals.py:396-411 | Which identity fails first; none exactly when all of them still stand |
| ProposalStore.Repository.ScanTestResults | backend/src/awf/improvement/proposals.py:263-278 | The loop finds what the recursive definition finds, unreadable files skipped and non-objects raising |
| ProposalStore.Repository.MergeProposal | backend/src/awf/improvement/proposals.py:414-451 | From a reachable state, whatever got as far as git was vouched for, and was under review unless left over; row, step and worktree afterwards, for every place of death |
| ProposalStore.Repository.Reject | backend/src/awf/improvement/proposals.py:454-467 | The same for `reject`; on success the row is rejected and the worktree gone |
| DurableTheorems.CrashRefinement | backend/src/awf/engine/executor.py:33-117 | Any history of crashed or failed walks, re-creations and resets, followed by a walk that completes, leaves every listed step with the status and output of one uninterrupted walk |
| DurableTheorems.WorkBound | backend/src/awf/engine/executor.py:41-93 | n steps and k walks, the last of which completes, invoke at most n + (k - 1) step bodies |
| DurableTheorems.SucceededStepsFormPrefix | backend/src/awf/engine/executor.py:109-110 | In every history the SUCCEEDED steps are a prefix of the list |
| DurableTheorems.SucceededNeverReinvoked | backend/src/awf/engine/executor.py:41-43 | A step that is SUCCEEDED at some moment is never invoked after it |
| DurableTheorems.HistoryKeeps | backend/src/awf/engine/executor.py:33-117 | Rows of SUCCEEDED steps and of other runs stay as they are, and at most one invocation is lost for each walk |
| DurableTheorems.StepLeaves | backend/src/awf/engine/executor.py:33-93 | What a call on an open step leaves by where it stopped: RUNNING before a death in or before the body, FAILED with the class that was raised, SUCCEEDED with what the body computes; whether its start event is written and its body invoked |
| DurableTheorems.CachedStep | backend/src/awf/engine/executor.py:41-43 | A SUCCEEDED step is answered from its row, and nothing changes |
| DurableTheorems.WalkMarksRun | backend/src/awf/engine/executor.py:96-117 | In any database a walk leaves its run SUCCEEDED if it completes and RUNNING otherwise, and no other run marked |
| DurableTheorems.ScanExactly | backend/src/awf/engine/recovery.py:12-18 | After a walk that marked the run, the scan lists the run if and only if the walk did not complete; other runs are unaffected |
| DurableTheorems.InterruptedRunIsScanned | backend/src/awf/engine/recovery.py:12-18 | From its creation on a run is listed until one of its walks completes, and no longer once one has |
| DurableTheorems.ResetKeepsSucceeded | backend/src/awf/engine/recovery.py:21-44 | A reset never removes or changes a SUCCEEDED row |
| DurableReset.ResetGoesThroughExactly | backend/src/awf/db/schema.py:52-86 | In any database, the reset commits if and only if every row of the run that a foreign key references is neither in flight nor of a node without success |
| DurableReset.ResetDeletesExactly | backend/src/awf/engine/recovery.py:21-44 | A reset that commits leaves exactly the rows of other runs and those of this run that are neither in flight nor of a node without success, each as it was |
| DurableReset.LostBodyBlocksReset | backend/src/awf/engine/recovery.py:21-44 | Over every history, next to any other runs and whatever nodes the steps belong to, the reset aborts and changes nothing if and only if some started step of the run is in flight, or of a node without success; a step whose body was invoked is a started one, so a lost body stands in the way exactly when it is in that state |
| DurableReset.EveryLostBodyBlocks | backend/src/awf/engine/recovery.py:21-44 | When no two steps share a node, every lost body blocks the reset, which commits exactly when every started step is SUCCEEDED |
| DurableReset.SharedNodeResets | backend/src/awf/engine/recovery.py:33-42 | A history in which it does not: of two steps of one node the second fails after the first succeeded, and the reset commits past the failed one |
| DurableReset.LostBody | backend/src/awf/engine/recovery.py:21-44 | A history that ends with a lost body and a reset that aborts |
| DurableStore.Store.CreateRun | backend/src/awf/engine/run.py:9-24 | A run just created is listed for recovery and every other run as before; a second creation changes nothing |
| DurableStore.Store.CreateStepRow | backend/src/awf/engine/run.py:27-45 | A row that was there is as it was, and a new one is PENDING, of its run and node |
| DurableStore.Store.ExecuteStep | backend/src/awf/engine/executor.py:33-93 | What is returned is what the SUCCEEDED row holds, what is raised what the FAILED row holds; at most one body, of a step not yet SUCCEEDED, is invoked; other rows are untouched |
| DurableStore.Store.ExecuteWorkflow | backend/src/awf/engine/executor.py:96-117 | The loop over the steps does what the specification's walk does, and marks the run by how it ended |
| DurableStore.Store.ScanIncompleteRuns | backend/src/awf/engine/recovery.py:12-18 | Exactly the runs in no terminal state |
| DurableStore.Store.ResetInterruptedNodeSteps | backend/src/awf/engine/recovery.py:21-44 | The node-by-node deletions leave exactly the rows of other runs and the settled ones, or are rolled back as a whole |
| GovernedTheorems.MachineSafety | backend/src/awf/machine/activities.py:64-85 | Every machine body that ever started was of no prohibited class and an action of its capability, and needed nobody (R0, or approval `never`) or stands under an approved row for its step that was requested for this action and no other |
| GovernedTheorems.AgentSafety | backend/src/awf/guard/capability_guard.py:37-62 | Over every history, no agent with a capability ran with class R3 or an unknown role, no adversary created, updated or deleted, no verifier did so above R0, and the capability was on the allowlist and needed nobody, unless an approved row of its step was requested for this very action |
| CapabilityGuard.GuardExactly | backend/src/awf/guard/capability_guard.py:37-62 | Which calls the guard clears, which it leaves to an operator and which have an unknown role, by allowlist, role, operation, class and approval |
| GovernedTheorems.MachineBodyStartsExactly | backend/src/awf/machine/activities.py:64-85 | In every reachable state, exactly when a call starts the machine body, and that it starts this action: the step waits and its row approves the action, or it has no row and the capability needs nobody |
| GovernedTheorems.OneDecisionForEver | backend/src/awf/ops/approval.py:50-61 | Over every history a step has at most one approval row; its digest and risk class never change, and its status moves once |
| GovernedTheorems.RejectionIsFinal | backend/src/awf/machine/approvals.py:52-63 | After a rejection no governed body of that step starts again, in any re-run, with any arguments, through any executor |
| GovernedTheorems.AgentBodyStartsExactly | backend/src/awf/engine/agent_step.py:122-223 | Exactly when an agent node starts its body, and under which grant: without a capability, with an approved row for this action, or without a row, listed, in a role that may, and in need of nobody |
| GovernedWitness.AgentRunsAfterRejection | backend/src/awf/engine/agent_step.py:185-186 | A history in which an agent body starts after its step was rejected |
| GovernedTheorems.GatePassesExactly | backend/src/awf/workflow/approval.py:46-120 | An approval node passes if and only if its step's row is approved |
| GovernedWitness.GatePassesChangedAction | backend/src/awf/workflow/approval.py:51-104 | A history in which a node passes on an approval given for another action |
| GovernedTheorems.ApprovedThenCrashedNeverRuns | backend/src/awf/machine/approvals.py:66-71 | A machine step that has an approved row but is no longer waiting never runs its machine body again, in any history |
| GovernedWitness.ApprovedMachineStepStuck | backend/src/awf/machine/activities.py:71-78 | A history that ends with such a step, whose next call only waits |
| GovernedTheorems.VoiceNeverRunsHighRisk | backend/src/awf/ops/approval.py:95-127 | When all approvals come by voice, no R3 capability and no R2 one whose approval is not `never` is ever used, by machine nodes or agents |
| GovernedOutcomes.MachineLeaves | backend/src/awf/machine/activities.py:54-85 | What every machine call leaves, by what it answers: a completed body its step SUCCEEDED, a raising one or a refusal step and run FAILED, a death in or before the body RUNNING, a new request step and run waiting on a pending row for this action; nothing else changes |
| GovernedOutcomes.MachineRefusedExactly | backend/src/awf/machine/activities.py:64-85 | In every reachable state a machine call is refused exactly if its action cannot be built, its row is for another action or rejected, or it has none and its class is prohibited |
| GovernedOutcomes.TheMachineKinds | backend/src/awf/workflow/activities.py:38-38 | The five registered machine activities can be built, and no machine action is of the agents' kind |
| GovernedOutcomes.AgentLeaves | backend/src/awf/engine/agent_step.py:174-223 | The same for agents, where only a denial by the guard is recorded |
| GovernedOutcomes.AgentRefusedExactly | backend/src/awf/engine/agent_step.py:122-223 | In every reachable state an agent call is refused exactly if its row is for another action or rejected, or it has none and list, role or class stand in the way |
| GovernedOutcomes.GateOutcomes | backend/src/awf/workflow/approval.py:46-120 | An approval node requests, waits, fails its step or passes by the row of its step, exactly, and what each leaves |
| GovernedOutcomes.SucceededForGood | backend/src/awf/machine/activities.py:64-66 | Once a step is SUCCEEDED, no history that neither purges it nor writes it from elsewhere starts a body of it again, through any executor |
| GovernedOutcomes.ApprovedMachineRuns | backend/src/awf/machine/activities.py:71-85 | A machine call left waiting whose row is approved later starts that very body when made again while its step waits, whatever happened in between |
| GovernedOutcomes.ApprovedAgentRuns | backend/src/awf/engine/agent_step.py:122-137 | The same for an agent, whose step need not wait any more |
| GovernedOutcomes.MachineApprovalBinds | backend/src/awf/machine/activities.py:88-156 | Two machine calls have the same approval digest if and only if kind, run, step, node, capability, target and body are the same |
| GovernedOutcomes.AgentApprovalBinds | backend/src/awf/engine/agent_step.py:96-119 | Two agent calls do if and only if run, step, adapter, role, capability and objective are the same; the allowlist is not bound |
| GovernedOutcomes.RowKeepsItsStep | backend/src/awf/db/schema.py:52-86 | A step with an approval row is never deleted, in any history |
| ApprovalTable.VoiceApprovesExactly | backend/src/awf/approval_policy.py:6-14 | Exactly when voice alone turns a row from pending to approved, that only this row changes, and which refusal comes otherwise |
| ApprovalTable.DecidesExactly | backend/src/awf/ops/approval.py:50-61 | A decision is taken exactly on a pending row, and changes its status and nothing else |
| MachineAction.DigestIdentifiesAction | backend/src/awf/machine/action.py:22-41 | Two actions have the same digest if and only if they are the same action, absent members dropped or not |
| GovernedProofs.RunKeeps | backend/src/awf/machine/approvals.py:26-90 | Every history keeps: a waiting step has a row, no row is expired, every started body is justified |
| GovernedStore.Store.RunMachineActivity | backend/src/awf/machine/activities.py:54-85 | From a reachable state the call starts a body exactly when it may, and then this action; its step is SUCCEEDED if it ran, step and run FAILED if it failed or was refused, RUNNING after a death in or before the body |
| GovernedStore.Store.Authorize | backend/src/awf/machine/approvals.py:26-49 | Authorisation and the body behind it: the body starts exactly if the capability needs nobody and the process lives that long |
| GovernedStore.Store.ReadStanding | backend/src/awf/machine/approvals.py:52-63 | In a reachable state an action is cleared exactly if an approved row of its step carries its digest, and absent exactly if the step has no row |
| GovernedStore.Store.RunAgentStep | backend/src/awf/engine/agent_step.py:174-223 | From a reachable state the call starts a body exactly when it may, and that body; the status it leaves by its answer |
| GovernedStore.Store.RunApprovalNode | backend/src/awf/workflow/approval.py:46-120 | From a reachable state the node passes exactly when it may; its step is then SUCCEEDED, and FAILED if it was refused |
| GovernedStore.Store.OpApprove | backend/src/awf/ops/approval.py:95-127 | By voice only what the voice rule lets through is approved; exactly the one row changes, or nothing |
| GovernedStore.Store.OpReject | backend/src/awf/ops/approval.py:130-131 | A rejection that is accepted leaves its step rejected |
| GovernedStore.Store.DecideApproval | backend/src/awf/ops/approval.py:50-61 | Exactly a pending row is decided, and no other row changes |
| RegistryStore.Catalog.ReindexAll | backend/src/awf/registry/index.py:81-111 | The loops over kinds and roots give the rows the specification gives reference by reference |
| RegistryStore.Catalog.IndexKind | backend/src/awf/registry/index.py:89-109 | One pass upserts exactly its objects, in any listing order |
| RegistryTheorems.PublishThenResolve | backend/src/awf/ops/registry.py:384-399 | Resolving what was just published gives the data-root copy with the published digest, unless its row was blocked before; the row names `data` exactly if it was new or named it before |
| RegistryTheorems.PublishExactly | backend/src/awf/ops/registry.py:304-399 | A publish goes through exactly if the kind is known, a skill has its `SKILL.md` and a persona it names resolves; where the object goes, and digest, path, source and trust of its row; a refused one changes nothing |
| RegistryTheorems.PublishFrame | backend/src/awf/registry/resolve.py:39-59 | Other names resolve as before; another version of the same name does exactly if the name was under `data` already, and is not found otherwise |
| RegistryTheorems.InterruptedPublish | backend/src/awf/ops/registry.py:313-331 | A publish that dies before its commit still serves the new object if and only if the whole object was on disk and the old row fits it, for every place to die |
| RegistryTheorems.PartlyWritten | backend/src/awf/registry/kinds.py:69-74 | A half-written object is served from `data` if and only if it already counts as a version, for a skill with its `SKILL.md`, and the row fits it; if it does not count it is missing, and served from `config` under the same condition as a removed one |
| RegistryTheorems.RemovedDirectory | backend/src/awf/ops/registry.py:315-318 | A skill removed and not yet copied is found if and only if `config` holds it, no other version keeps the name under `data`, and the row lets that one through; then it is the one in `config` |
| RegistryTheorems.IndexAgreesWithOverlay | backend/src/awf/registry/index.py:81-111 | After a reindex whatever the two-root lookup finds has a row with its digest, place and source, and resolves unless blocked; trust is untouched |
| RegistryTheorems.ReindexIsIdempotent | backend/src/awf/registry/index.py:52-78 | A second reindex changes nothing |
| RegistryTheorems.FirstTrust | backend/src/awf/registry/index.py:22-22 | The trust a new row gets, for objects in one root and in both |
| RegistryTheorems.OnlyOperatorsChangeTrust | backend/src/awf/registry/index.py:43-49 | Over every history a row stays and its trust is the operator's last decision |
| RegistryTheorems.TrustExactly | backend/src/awf/ops/registry.py:406-413 | A trust decision changes the trust of one row and nothing else |
| RegistryTheorems.BlockedStaysBlocked | backend/src/awf/registry/resolve.py:75-86 | A blocked reference resolves in no history that ends without another decision |
| RegistryTheorems.PublishThenReindexNamesData | backend/src/awf/ops/registry.py:391-399 | A reindex corrects the source a publish leaves stale |
| RegistryStore.Catalog.PublishObject | backend/src/awf/ops/registry.py:304-399 | Roots and index after a publish that is refused, interrupted or complete; a complete one resolves to the object unless its row was blocked |
| RegistryStore.Catalog.TrustObject | backend/src/awf/ops/registry.py:406-413 | The one row changed, or a refusal; a reference just blocked does not resolve |
| RegistryTheorems.TheKinds | backend/src/awf/registry/kinds.py:22-50 | The twelve kinds have distinct keys, so the dictionary of kinds loses none |
| RpcTheorems.SettledAtMostOnce | frontend/shared/src/client.ts:34-85 | In every history each id handed out is pending with a running timer, or settled once, never both |
| RpcTheorems.SettledByItsOwnReply | backend/src/awf/server/stdio.py:41-70 | A call settled by a reply was dispatched exactly once, as it was issued, and its fate is what its method and an end of its handler lead to |
| RpcFates.FateTellsWhatHappened | backend/src/awf/server/stdio.py:34-70 | Over every history: a call resolved only if its method is in the table and the step that served it had a handler that returned that value; -32601 came of a missing method, a handler's own code and message of a JSON-RPC error, -32000 of any other exception; a time-out of its own timer and the other rejections of an exit or a transport error, while it was pending |
| RpcTheorems.ResponsesInRequestOrder | backend/src/awf/server/stdio.py:94-105 | One response for each dispatched request, in the order of the requests |
| RpcTheorems.LateRepliesDropped | frontend/shared/src/client.ts:43-46 | Nothing that comes later settles a settled call again or changes how it was settled |
| RpcTheorems.ExitLeavesNothingPending | frontend/shared/src/client.ts:55-70 | After an exit or a transport error no call is pending, no timer runs, and every issued call is settled, those pending just now oldest first |
| RpcTheorems.UndisturbedCallsAreAnswered | frontend/shared/src/client.ts:72-85 | Over every interleaving in which its own timer does not fire and the transport holds, once all is served and read, a call that was not lost is settled by the answer to its own request |
| RpcServer.ServeStdio | backend/src/awf/server/stdio.py:94-105 | Every line that is not blank gets exactly one answer, in the order of the lines: a parse error without an id for what is not JSON, and for a request its own id with what its handler's end leads to; a JSON value that is no object ends the loop there |
| RpcClient.ProtocolClient.Issue | frontend/shared/src/client.ts:72-85 | A new id, never pending or settled before, with its entry, its timer and the line sent |
| RpcClient.ProtocolClient.HandleOutput | frontend/shared/src/client.ts:34-53 | Exactly a response to a pending id settles anything, and that id is then no longer pending |
| RpcClient.ProtocolClient.OnTimer | frontend/shared/src/client.ts:76-79 | Afterwards the call is not pending, and settled exactly if it was issued |
| RpcClient.ProtocolClient.RejectPending | frontend/shared/src/client.ts:55-70 | The loop settles every pending call in id order; afterwards every issued call is settled and nothing is pending |
| VoiceTheorems.LogRefinesAutomaton | backend/src/awf/speech/session.py:109-149 | Over every history of frames, other entries, expiry and crashes, the state scanned from the log is the fold of the transition table over the accepted frames |
| VoiceTurns.EntersExactly | backend/src/awf/speech/session.py:40-69 | The transition table read backwards: from which states and by which frames each state is entered or kept |
| VoiceTurns.SpeaksOnlyWhenAsked | backend/src/awf/speech/session.py:40-69 | Over every history, a session whose log says it is speaking was listening and has since accepted exactly one turn: speech stopped, partial transcripts, the final one, its submission, the answer's text and its audio |
| VoiceTheorems.InterruptionKeepsState | backend/src/awf/speech/session.py:141-148 | Exactly when an interruption's payload leaves the recorded state standing |
| VoiceTheorems.EventsMirrorLog | backend/src/awf/speech/session.py:190-222 | The events mirror the state entries one by one, prior states included, if no process dies between the two commits |
| VoiceTheorems.ClosedIsAbsorbing | backend/src/awf/speech/session.py:127-128 | After closed no frame is accepted or mirrored, whatever frames come, with whatever payloads |
| VoiceTheorems.MarksExactly | backend/src/awf/memory/sessions.py:37-72 | When an append is refused, and when a refusal or a show leaves the mark |
| VoiceTheorems.SubmitExactly | backend/src/awf/ops/voice.py:94-165 | Exactly when a submitted text goes through, in terms of state, inputs, run and every reading of the clock; it then speaks, and stays submitting if only the run fails |
| VoiceStore.VoiceSession.CurrentState | backend/src/awf/speech/session.py:109-122 | The backward scan finds the newest state entry |
| VoiceStore.VoiceSession.AppendEntry | backend/src/awf/memory/sessions.py:37-59 | One entry is added exactly if the session is neither marked expired nor past its time; otherwise it is marked and nothing is added |
| VoiceStore.VoiceSession.ShowSession | backend/src/awf/memory/sessions.py:62-72 | An active session past its time is marked; the mark changes no later verdict |
| VoiceStore.VoiceSession.Summarise | backend/src/awf/memory/sessions.py:84-98 | The mark is replaced, and from then on the time alone decides |
| VoiceStore.VoiceSession.Accept | backend/src/awf/speech/session.py:125-149 | An accepted frame is the next state of the table and, its payload being clean, what the log says afterwards; a refused one changes nothing |
| VoiceStore.VoiceSession.Submit | backend/src/awf/ops/voice.py:94-165 | The chained calls succeed exactly when a submit may, and then the session speaks |
| EnvTheorems.GetAfterSet | backend/src/awf/envfile.py:24-33 | What a key reads as after it is set: the value without the blanks around it, unless a line below the edited one defines the key |
| EnvTheorems.SetThenGet | backend/src/awf/envfile.py:17-33 | With at most one definition to begin with, the value set is the value read, blanks around it aside, `=` included |
| EnvTheorems.SetKeepsOthers | backend/src/awf/envfile.py:24-33 | Every other key reads as before |
| EnvTheorems.DefinitionExactly | backend/src/awf/envfile.py:9-13 | A line defines a key and a value if and only if it is blanks, the key (no `=`, no comment), blanks, `=`, blanks, the value and blanks |
| EnvTheorems.SetWritesOneLine | backend/src/awf/envfile.py:24-33 | The first line on which `key=` follows only blanks is rewritten, or a line is added at the end; every other line stays |
| EnvTheorems.AnyEndingReads | backend/src/awf/envfile.py:8-8 | Whichever of the three line endings a file uses, it reads as the same lines |
| EnvFile.SplitWritten | backend/src/awf/envfile.py:25-33 | Lines survive being written and read again |
| EnvFile.File.Parse | backend/src/awf/envfile.py:6-14 | The dictionary holds, for every key, its last definition |
| EnvFile.File.SetValue | backend/src/awf/envfile.py:24-33 | The loop edits the first line with the prefix or appends one |
| KeyRotation.RotationEndToEnd | backend/src/awf/secrets/cli.py:45-53 | After rotation every stored secret reads as before if and only if no line below the edited one defines the key as another key; other `.env` keys keep their values |
| KeyRotation.RotationIsSafe | backend/src/awf/secrets/cli.py:45-53 | With one definition of the key, every read gives what it gave before, missing names included |
| KeyRotation.CrashLosesSecrets | backend/src/awf/secrets/cli.py:49-52 | A death between the commit and the `.env` write leaves every secret unreadable if and only if the keys differ |
| KeyRotation.ReadExactly | backend/src/awf/secrets/store.py:33-37 | What reading a secret gives, and which failure comes first when several things are wrong |
| KeyRotation.LoadsExactly | backend/src/awf/secrets/cli.py:45-53 | Which key a rotation starts from, and which failure is reported when there is none |
| KeyRotation.Vault.RotateKey | backend/src/awf/secrets/store.py:45-60 | Either every row is re-encrypted with its own plaintext or none changes, the former exactly if all rows open |
| KeyRotation.Vault.CmdRotateKey | backend/src/awf/secrets/cli.py:45-53 | Rows, file and error for a missing key, a malformed key, a row that does not open, success and both deaths |
| KeyRotation.Vault.GetSecret | backend/src/awf/secrets/store.py:33-37 | The plaintext the loaded key opens, or which failure comes first: no key, no such name, malformed key, wrong key |
| KeyRotation.Vault.SetSecret | backend/src/awf/secrets/store.py:19-30 | What was set is what the key opens, and every other name reads under every key as before |
| DirectoryDigest.DigestIsFaithful | backend/src/awf/registry/skill.py:77-85 | Two directories have the same digest if and only if they hold the same paths with the same bytes, however they were walked |
| DirectoryDigest.NewlinePathsCollide | backend/src/awf/registry/skill.py:83-85 | With a newline in a path, two different directories share a digest under every hash |
| DirectoryDigest.DigestDirectory | backend/src/awf/registry/skill.py:77-85 | The loop that builds the lines computes the digest of the sorted walk |
| SpeechSegments.ProbabilitySegments | backend/src/awf/speech/vad_silero.py:67-79 | The segments are the maximal runs of chunks at or above the threshold, all of them and nothing else |
| SpeechSegments.EnergySegments | backend/src/awf/speech/vad_silero.py:80-91 | The segments are the maximal runs of loud chunks and single quiet chunks between two loud ones |
| SpeechSegments.DetectSegments | backend/src/awf/speech/vad_silero.py:60-92 | The energy loop answers exactly when no chunk reaches the threshold |
| SpeechSegments.LoudBySamples | backend/src/awf/speech/vad_silero.py:82-85 | A chunk whose samples are all at least 328 in size is loud, one whose samples are all at most 327 is not |
| SpeechSegments.ExactIsUnique | backend/src/awf/speech/vad_silero.py:67-79 | That promise determines the list of segments |
| SpeechSegments.BridgesOnlySingles | backend/src/awf/speech/vad_silero.py:88-91 | Fallback segments start and end on loud chunks, hold no two quiet chunks in a row, and lie at least two chunks apart |

## Left out
- The workflow engine's own node scheduling (`awf.workflow`: loops, maps, handoffs, sub-workflows): `run_workflow` is the driver of the durability results.
- Decisions that land inside a worker call, and SQLite locking: each call reads and writes between two commits as one step.
- Git failures other than a conflict or an unknown branch, and permissions or disk errors.
- `verify` of a proposal and the evaluation it runs: its test-result artifact is an artifact that appears.
- Summaries, previews and changed paths of a proposal, and its event table.
- The order of test results created in the same second: they are read newest first.
- Prompt assembly, skills, MCP servers and model profiles of agent nodes; path, glob and URL policy of machine actions, which is an abstract accept or reject before the action is built.
- `gates/voice_approval.py`, a second voice path that uses a risk class its caller supplies.
- `failure_class` and time stamps are not compared after a later success: a FAILED step that succeeds on a re-walk keeps its old failure class.
- `latest_version`, the counts `reindex` returns, and resolving without a database.
- Files under a registry root that follow no layout, and what makes an object parse.
- A response line that is the JSON value `null`, on which the client raises, and values that JSON text does not carry unchanged.
- Frames that arrive for a voice session while the run that answers it is going on: `SubmitText` lets the run leave the session alone.
- Encodings, and float rounding in segment times and in the root mean square, which is compared exactly.
