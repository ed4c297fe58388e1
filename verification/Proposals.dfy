/** Improvement proposals and the merge protocol (`improvement/proposals.py`).

    Each operation is a function from store to store; where a call commits more
    than once, its `dies` argument says after which commit the process stops. */
module Proposals {
  import opened Base
  import opened ApprovalTable
  import opened Git

  datatype ProposalStatus = Draft | ReadyForReview | MergedIn | RejectedOut

  /** Positions in the artifact and proposal tables. */
  type ArtifactId = nat
  type ImprovementId = nat

  datatype Passed = Absent | IsTrue | OtherTruthy | Falsy
  datatype Content = Missing | NotJson | NotObject | Doc(passed: Passed, commit: Option<CommitId>)
  datatype Kind = VerdictKind | TestResultKind | PatchKind | OtherKind
  datatype Artifact = Artifact(run: string, kind: Kind, content: Content)

  datatype Proposal = Proposal(
    run: string, target: Branch, base: CommitId, candidateBranch: Branch, candidate: CommitId,
    diffDigest: Digest<Patch>, patch: ArtifactId, status: ProposalStatus, verdict: Option<ArtifactId>,
    validations: seq<ArtifactId>, mergeCommit: Option<CommitId>)

  datatype StepId = MergeStep(run: string, improvement: ImprovementId) | NodeStep(name: string)
  datatype StepStatus = StepPending | StepWaiting | StepSucceeded | StepOther
  datatype Step = Step(run: string, status: StepStatus)

  /** The tuple a merge approval is bound to; other rows carry other payloads. */
  datatype Payload =
    | MergeAction(
        improvement: ImprovementId, run: string, target: Branch, base: CommitId, candidateBranch: Branch,
        candidate: CommitId, diffDigest: Digest<Patch>, verdict: Option<ArtifactId>, validations: seq<ArtifactId>)
    | OtherAction(name: string)

  type Row = Approval<StepId, Payload>

  datatype Store = Store(
    succeeded: map<string, bool>, steps: map<StepId, Step>, artifacts: seq<Artifact>, approvals: seq<Row>,
    proposals: seq<Proposal>, repo: Repo)

  datatype Error =
    | NoRun | RunNotSucceeded | NoWorktree | DetachedTarget | GitError | EmptyDiff | NoSteps
    | NoProposal | WrongStatus(was: ProposalStatus) | NoVerdict | VerdictNotPassed
    | TargetMoved | CandidateChanged | DiffChanged | Dirty | NoTestResult | UnreadableTestResult
    | ApprovalMismatch | NoApproval | NotForThisProposal | NotApproved(status: Status) | MergeConflict

  datatype Outcome = Ok | Requested(approval: nat) | Failed(error: Error) | Died

  // ---------------------------------------------------------------- payloads

  /** `_merge_action_payload`. */
  function PayloadOf(imp: ImprovementId, p: Proposal): Payload {
    MergeAction(imp, p.run, p.target, p.base, p.candidateBranch, p.candidate, p.diffDigest, p.verdict, p.validations)
  }

  /** `merge_action_digest`. */
  function MergeDigest(imp: ImprovementId, p: Proposal): Digest<Payload> {
    Sha256(PayloadOf(imp, p))
  }

  function MergeStepOf(imp: ImprovementId, p: Proposal): StepId {
    MergeStep(p.run, imp)
  }

  // --------------------------------------------------------------- artifacts

  /** `_verdict_passed`; none when it raises. */
  function VerdictPassed(artifacts: seq<Artifact>, run: string, id: ArtifactId): Option<bool> {
    if id >= |artifacts| || artifacts[id].run != run || artifacts[id].kind != VerdictKind then None
    else if !artifacts[id].content.Doc? then None
    else Some(artifacts[id].content.passed == IsTrue || artifacts[id].content.passed == OtherTruthy)
  }

  datatype Scan = Found | NotFound | Raises

  /** `_test_result_passed`: newest first; unreadable JSON is skipped, a JSON
      value that is not an object raises. */
  function TestResultPassed(artifacts: seq<Artifact>, run: string, candidate: CommitId): Scan {
    if artifacts == [] then NotFound
    else
      var newest := artifacts[|artifacts| - 1];
      var older := artifacts[..|artifacts| - 1];
      if newest.run != run || newest.kind != TestResultKind || newest.content.Missing? || newest.content.NotJson? then
        TestResultPassed(older, run, candidate)
      else if newest.content.NotObject? then Raises
      else if newest.content.commit == Some(candidate) && newest.content.passed == IsTrue then Found
      else TestResultPassed(older, run, candidate)
  }

  // ------------------------------------------------------------------ prepare

  function FindProposal(proposals: seq<Proposal>, run: string): (found: Option<ImprovementId>)
    ensures found.Some? ==> found.value < |proposals| && proposals[found.value].run == run
    ensures found.None? ==> forall i | 0 <= i < |proposals| :: proposals[i].run != run
  {
    if proposals == [] then None
    else if proposals[|proposals| - 1].run == run then Some(|proposals| - 1)
    else FindProposal(proposals[..|proposals| - 1], run)
  }

  predicate HasSteps(steps: map<StepId, Step>, run: string) {
    exists id | id in steps :: steps[id].run == run
  }

  function TreeOf(r: Repo, c: CommitId): Tree {
    if c in r.commits then r.commits[c].tree else map[]
  }

  /** The identities `prepare` reads from git, or the error it stops with.
      `mergeBase` is git's answer for the target branch and the candidate. */
  function ReadIdentities(s: Store, run: string, mergeBase: Option<CommitId>): (Proposal, Option<Error>) {
    var blank := Proposal(run, "", 0, "", 0, Sha256(map[]), 0, Draft, None, [], None);
    if run !in s.succeeded then (blank, Some(NoRun))
    else if !s.succeeded[run] then (blank, Some(RunNotSucceeded))
    else if run !in s.repo.worktrees then (blank, Some(NoWorktree))
    else if !s.repo.head.OnBranch? then (blank, Some(DetachedTarget))
    else
      var target := s.repo.head.branch;
      var worktree := s.repo.worktrees[run];
      var candidateBranch := if worktree.OnBranch? then worktree.branch else RunBranch(run);
      var candidate := HeadCommit(s.repo, worktree);
      if target !in s.repo.branches || candidate.None? || mergeBase.None? then (blank, Some(GitError))
      else
        var patch := Diff(TreeOf(s.repo, mergeBase.value), TreeOf(s.repo, candidate.value));
        if patch == map[] then (blank, Some(EmptyDiff))
        else if !HasSteps(s.steps, run) then (blank, Some(NoSteps))
        else
          (Proposal(run, target, mergeBase.value, candidateBranch, candidate.value, Sha256(patch), |s.artifacts|,
                    Draft, None, [], None), None)
  }

  /** `prepare`: writes the patch artifact, then inserts the run's row or resets
      the one it has, whatever its status. `merge_commit` is left as it was. */
  function Prepare(s: Store, run: string, mergeBase: Option<CommitId>, diesAfterArtifact: bool): (Store, Outcome) {
    var (p, error) := ReadIdentities(s, run, mergeBase);
    if error.Some? then (s, Failed(error.value))
    else
      var noted := s.(artifacts := s.artifacts + [Artifact(run, PatchKind, Missing)]);
      if diesAfterArtifact then (noted, Died)
      else match FindProposal(s.proposals, run)
        case None => (noted.(proposals := s.proposals + [p]), Ok)
        case Some(imp) =>
          (noted.(proposals := s.proposals[imp := p.(mergeCommit := s.proposals[imp].mergeCommit)]), Ok)
  }

  // --------------------------------------------------------------- mark_ready

  function MarkReady(s: Store, imp: ImprovementId, verdict: ArtifactId, validations: seq<ArtifactId>)
    : (Store, Outcome)
  {
    if imp >= |s.proposals| then (s, Failed(NoProposal))
    else
      var p := s.proposals[imp];
      if p.status != Draft && p.status != ReadyForReview then (s, Failed(WrongStatus(p.status)))
      else match VerdictPassed(s.artifacts, p.run, verdict)
        case None => (s, Failed(NoVerdict))
        case Some(false) => (s, Failed(VerdictNotPassed))
        case Some(true) =>
          var ready := p.(status := ReadyForReview, verdict := Some(verdict), validations := validations);
          (s.(proposals := s.proposals[imp := ready]), Ok)
  }

  // ----------------------------------------------------------------- rechecks

  /** `_recheck_identities`; none when everything still stands. */
  function Recheck(r: Repo, p: Proposal): Option<Error> {
    if p.run !in r.worktrees then Some(NoWorktree)
    else if p.target !in r.branches then Some(GitError)
    else if r.branches[p.target] != p.base then Some(TargetMoved)
    else
      var head := HeadCommit(r, r.worktrees[p.run]);
      if head.None? then Some(GitError)
      else if head.value != p.candidate then Some(CandidateChanged)
      else if Sha256(Diff(TreeOf(r, p.base), TreeOf(r, p.candidate))) != p.diffDigest then Some(DiffChanged)
      else if r.dirty then Some(Dirty)
      else None
  }

  function TestError(s: Store, p: Proposal): Option<Error> {
    match TestResultPassed(s.artifacts, p.run, p.candidate)
    case Found => None
    case NotFound => Some(NoTestResult)
    case Raises => Some(UnreadableTestResult)
  }

  // ------------------------------------------------------------ request_merge

  function AddStep(steps: map<StepId, Step>, id: StepId, run: string): map<StepId, Step> {
    if id in steps then steps else steps[id := Step(run, StepPending)]
  }

  function SetStep(steps: map<StepId, Step>, id: StepId, status: StepStatus): map<StepId, Step> {
    if id in steps then steps[id := steps[id].(status := status)] else steps
  }

  function RequestMerge(s: Store, imp: ImprovementId, diesAfterStep: bool): (Store, Outcome) {
    if imp >= |s.proposals| then (s, Failed(NoProposal))
    else
      var p := s.proposals[imp];
      if p.status != ReadyForReview then (s, Failed(WrongStatus(p.status)))
      else if Recheck(s.repo, p).Some? then (s, Failed(Recheck(s.repo, p).value))
      else if TestError(s, p).Some? then (s, Failed(TestError(s, p).value))
      else
        var step := MergeStepOf(imp, p);
        var stepped := s.(steps := AddStep(s.steps, step, p.run));
        if diesAfterStep then (stepped, Died)
        else match FindByStep(s.approvals, step)
          case Some(a) =>
            if s.approvals[a].digest != MergeDigest(imp, p) then (stepped, Failed(ApprovalMismatch))
            else (stepped, Requested(a))
          case None =>
            var row := Approval(step, MergeDigest(imp, p), Pending, Some(R2));
            (stepped.(approvals := s.approvals + [row], steps := SetStep(stepped.steps, step, StepWaiting)),
             Requested(|s.approvals|))
  }

  // -------------------------------------------------------------------- merge

  /** Where a merge or reject may die: after git but before the row, or after the
      row but before the worktree is removed. */
  datatype Death = Survives | AfterGit | BeforeCleanup

  /** Every check `merge` makes before it touches git. The proposal's status is
      not among them. */
  function MergeError(s: Store, imp: ImprovementId, approval: nat): Option<Error> {
    if imp >= |s.proposals| then Some(NoProposal)
    else if approval >= |s.approvals| then Some(NoApproval)
    else
      var p := s.proposals[imp];
      var row := s.approvals[approval];
      if row.step != MergeStepOf(imp, p) then Some(NotForThisProposal)
      else if row.status != Approved then Some(NotApproved(row.status))
      else if row.digest != MergeDigest(imp, p) then Some(ApprovalMismatch)
      else if Recheck(s.repo, p).Some? then Recheck(s.repo, p)
      else TestError(s, p)
  }

  function CloseMerged(s: Store, imp: ImprovementId, r: Repo): Store
    requires imp < |s.proposals|
  {
    var p := s.proposals[imp];
    var step := MergeStepOf(imp, p);
    s.(proposals := s.proposals[imp := p.(status := MergedIn, mergeCommit := HeadCommit(r, r.head))],
       steps := SetStep(s.steps, step, StepSucceeded),
       repo := r)
  }

  /** What `merge` does once its checks have passed. */
  function Land(s: Store, imp: ImprovementId, auto: Option<Tree>, dies: Death): (Store, Outcome)
    requires WellFormed(s.repo.commits) && imp < |s.proposals|
  {
    var p := s.proposals[imp];
    var (r, result) := MergeBranch(s.repo, p.candidateBranch, auto);
    if result == Conflicted then (s, Failed(MergeConflict))
    else if dies == AfterGit then (s.(repo := r), Died)
    else if dies == BeforeCleanup then (CloseMerged(s, imp, r), Died)
    else (CloseMerged(s, imp, r).(repo := RemoveWorktree(r, p.run)), Ok)
  }

  function Merge(s: Store, imp: ImprovementId, approval: nat, auto: Option<Tree>, dies: Death): (Store, Outcome)
    requires WellFormed(s.repo.commits)
  {
    var error := MergeError(s, imp, approval);
    if error.Some? then (s, Failed(error.value)) else Land(s, imp, auto, dies)
  }

  // ------------------------------------------------------------------- reject

  function RejectProposal(s: Store, imp: ImprovementId, dies: Death): (Store, Outcome) {
    if imp >= |s.proposals| then (s, Failed(NoProposal))
    else
      var p := s.proposals[imp];
      if p.status == MergedIn || p.status == RejectedOut then (s, Failed(WrongStatus(p.status)))
      else
        var closed := s.(proposals := s.proposals[imp := p.(status := RejectedOut)]);
        if dies != Survives then (closed, Died)
        else (closed.(repo := RemoveWorktree(s.repo, p.run)), Ok)
  }

  // ---------------------------------------------------------------- histories

  datatype Op =
    | DoPrepare(run: string, mergeBase: Option<CommitId>, diesAfterArtifact: bool)
    | DoMarkReady(imp: ImprovementId, verdict: ArtifactId, validations: seq<ArtifactId>)
    | DoRequest(imp: ImprovementId, diesAfterStep: bool)
    | DoMerge(imp: ImprovementId, approval: nat, auto: Option<Tree>, dies: Death)
    | DoReject(imp: ImprovementId, dies: Death)
    | Decision(id: nat, approve: bool)
    | StartRun(run: string)
    | FinishRun(run: string, ok: bool)
    | NodeStepAdded(name: string, run: string)
    | ArtifactAdded(artifact: Artifact)
    | OtherApproval(name: string, digest: Digest<Payload>)
    | Outside(repo: Repo)

  /** `prepare` may only be given an answer git could have printed. */
  ghost predicate HonestGit(s: Store, op: Op) {
    op.DoPrepare? && op.run in s.repo.worktrees && s.repo.head.OnBranch? && WellFormed(s.repo.commits) ==>
      var target := HeadCommit(s.repo, s.repo.head);
      var candidate := HeadCommit(s.repo, s.repo.worktrees[op.run]);
      target.Some? && candidate.Some? ==> IsMergeBase(s.repo.commits, target.value, candidate.value, op.mergeBase)
  }

  /** One transition. Runs start with fresh ids only, artifacts are never
      rewritten, and what others do to the repository is `Evolved`. A transition
      that could not happen leaves the store as it is. */
  ghost function Apply(s: Store, op: Op): Store {
    if !HonestGit(s, op) || !WellFormed(s.repo.commits) then s
    else match op
      case DoPrepare(run, mergeBase, dies) => Prepare(s, run, mergeBase, dies).0
      case DoMarkReady(imp, verdict, validations) => MarkReady(s, imp, verdict, validations).0
      case DoRequest(imp, dies) => RequestMerge(s, imp, dies).0
      case DoMerge(imp, approval, auto, dies) => Merge(s, imp, approval, auto, dies).0
      case DoReject(imp, dies) => RejectProposal(s, imp, dies).0
      case Decision(id, approve) => s.(approvals := Decide(s.approvals, id, if approve then Approved else Rejected).0)
      case StartRun(run) =>
        if run in s.succeeded then s
        else s.(succeeded := s.succeeded[run := false], repo := CreateWorktree(s.repo, run))
      case FinishRun(run, ok) => if run in s.succeeded then s.(succeeded := s.succeeded[run := ok]) else s
      case NodeStepAdded(name, run) => s.(steps := AddStep(s.steps, NodeStep(name), run))
      case ArtifactAdded(artifact) => s.(artifacts := s.artifacts + [artifact])
      case OtherApproval(name, digest) =>
        s.(approvals := s.approvals + [Approval(NodeStep(name), digest, Pending, None)])
      case Outside(repo) => if Evolved(s.repo, repo) then s.(repo := repo) else s
  }

  ghost function Run(s: Store, ops: seq<Op>): Store
    decreases |ops|
  {
    if ops == [] then s else Run(Apply(s, ops[0]), ops[1..])
  }

  ghost predicate Empty(s: Store) {
    && s.succeeded == map[] && s.steps == map[] && s.artifacts == [] && s.approvals == [] && s.proposals == []
    && ValidRepo(s.repo) && s.repo.worktrees == map[]
  }
}
