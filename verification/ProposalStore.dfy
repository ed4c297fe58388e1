/** `improvement/proposals.py` as it runs: tables that are updated row by row,
    early exits in the source's order, git called in between. Each operation is
    tied to its specification in `Proposals`, over which the results are proved. */
module ProposalStore {
  import opened Base
  import opened ApprovalTable
  import opened Git
  import opened Proposals
  import opened ProposalProofs
  import opened ProposalTheorems
  import opened ProposalOutcomes

  class Repository {
    var succeeded: map<string, bool>
    var steps: map<StepId, Step>
    var artifacts: seq<Artifact>
    var approvals: seq<Row>
    var proposals: seq<Proposal>
    var repo: Repo

    function State(): Store
      reads this
    {
      Store(succeeded, steps, artifacts, approvals, proposals, repo)
    }

    /** Some history of operations leads here. */
    ghost predicate Valid()
      reads this
    {
      Reachable(State())
    }

    constructor (repo: Repo)
      ensures State() == Store(map[], map[], [], [], [], repo)
      ensures ValidRepo(repo) && repo.worktrees == map[] ==> Valid()
    {
      succeeded, steps, artifacts, approvals, proposals := map[], map[], [], [], [];
      this.repo := repo;
      new;
      assert Run(State(), []) == State();
    }

    /** `SELECT ... WHERE run_id = ?` on the proposals. */
    method SelectProposal(run: string) returns (found: Option<ImprovementId>)
      ensures found == FindProposal(proposals, run)
    {
      var n := |proposals|;
      assert proposals[..n] == proposals;
      while n > 0
        invariant 0 <= n <= |proposals|
        invariant FindProposal(proposals, run) == FindProposal(proposals[..n], run)
      {
        assert proposals[..n][..n - 1] == proposals[..n - 1];
        n := n - 1;
        if proposals[n].run == run {
          return Some(n);
        }
      }
      return None;
    }

    method ScanTestResults(run: string, candidate: CommitId) returns (scan: Scan)
      ensures scan == TestResultPassed(artifacts, run, candidate)
    {
      var n := |artifacts|;
      assert artifacts[..n] == artifacts;
      while n > 0
        invariant 0 <= n <= |artifacts|
        invariant TestResultPassed(artifacts, run, candidate) == TestResultPassed(artifacts[..n], run, candidate)
      {
        assert artifacts[..n][..n - 1] == artifacts[..n - 1];
        n := n - 1;
        var row := artifacts[n];
        if row.run != run || row.kind != TestResultKind || row.content.Missing? || row.content.NotJson? {
          continue;
        }
        if row.content.NotObject? {
          return Raises;
        }
        if row.content.commit == Some(candidate) && row.content.passed == IsTrue {
          return Found;
        }
      }
      return NotFound;
    }

    method CheckTests(p: Proposal) returns (error: Option<Error>)
      ensures error == TestError(State(), p)
    {
      var scan := ScanTestResults(p.run, p.candidate);
      match scan {
        case Found => return None;
        case NotFound => return Some(NoTestResult);
        case Raises => return Some(UnreadableTestResult);
      }
    }

    /** `_recheck_identities`, in the order it looks. */
    method RecheckIdentities(p: Proposal) returns (error: Option<Error>)
      ensures error == Recheck(repo, p)
      ensures error.None? <==> Stands(repo, p)
    {
      if p.run !in repo.worktrees {
        return Some(NoWorktree);
      }
      if p.target !in repo.branches {
        return Some(GitError);
      }
      if repo.branches[p.target] != p.base {
        return Some(TargetMoved);
      }
      var head := HeadCommit(repo, repo.worktrees[p.run]);
      if head.None? {
        return Some(GitError);
      }
      if head.value != p.candidate {
        return Some(CandidateChanged);
      }
      if Sha256(Diff(TreeOf(repo, p.base), TreeOf(repo, p.candidate))) != p.diffDigest {
        return Some(DiffChanged);
      }
      return if repo.dirty then Some(Dirty) else None;
    }

    method PrepareRun(run: string, mergeBase: Option<CommitId>, diesAfterArtifact: bool) returns (outcome: Outcome)
      modifies this`artifacts, this`proposals
      ensures (State(), outcome) == Prepare(old(State()), run, mergeBase, diesAfterArtifact)
      ensures old(Valid()) && old(HonestGit(State(), DoPrepare(run, mergeBase, diesAfterArtifact))) ==> Valid()
      ensures outcome == Ok <==> old(Preparable(State(), run, mergeBase)) && !diesAfterArtifact
      ensures outcome == Ok ==> Prepared(old(State()), proposals, run, mergeBase)
      ensures outcome != Ok ==> proposals == old(proposals)
      ensures artifacts
              == old(artifacts) + if outcome.Failed? then [] else [Artifact(run, PatchKind, Missing)]
    {
      PrepareExactly(State(), run, mergeBase, diesAfterArtifact);
      if Valid() && HonestGit(State(), DoPrepare(run, mergeBase, diesAfterArtifact)) {
        PrepareReachable(State(), run, mergeBase, diesAfterArtifact);
      }
      hide Reachable, HonestGit, Preparable, Prepared, ReadIdentities;
      var (p, error) := ReadIdentities(State(), run, mergeBase);
      if error.Some? {
        return Failed(error.value);
      }
      artifacts := artifacts + [Artifact(run, PatchKind, Missing)];
      if diesAfterArtifact {
        return Died;
      }
      var existing := SelectProposal(run);
      if existing.None? {
        proposals := proposals + [p];
      } else {
        var imp := existing.value;
        proposals := proposals[imp := p.(mergeCommit := proposals[imp].mergeCommit)];
      }
      return Ok;
    }

    method MarkProposalReady(imp: ImprovementId, verdict: ArtifactId, validations: seq<ArtifactId>)
      returns (outcome: Outcome)
      modifies this`proposals
      ensures (State(), outcome) == MarkReady(old(State()), imp, verdict, validations)
      ensures old(Valid()) ==> Valid()
      ensures outcome == Ok <==>
                && imp < |old(proposals)| && !Closed(old(proposals)[imp])
                && PassedVerdict(artifacts, old(proposals)[imp].run, verdict)
      ensures outcome == Ok ==>
                && OnlyRowChanged(old(proposals), proposals, imp)
                && proposals[imp] == old(proposals)[imp].(status := ReadyForReview, verdict := Some(verdict),
                                                          validations := validations)
    {
      MarkReadyExactly(State(), imp, verdict, validations);
      if Valid() { MarkReachable(State(), imp, verdict, validations); }
      hide Reachable;
      if imp >= |proposals| {
        return Failed(NoProposal);
      }
      var p := proposals[imp];
      if p.status != Draft && p.status != ReadyForReview {
        return Failed(WrongStatus(p.status));
      }
      var passed := VerdictPassed(artifacts, p.run, verdict);
      if passed.None? {
        return Failed(NoVerdict);
      }
      if !passed.value {
        return Failed(VerdictNotPassed);
      }
      proposals := proposals[imp := p.(status := ReadyForReview, verdict := Some(verdict), validations := validations)];
      return Ok;
    }

    /** `create_step`: insert, or do nothing if the row is there. */
    method CreateStep(id: StepId, run: string)
      modifies this`steps
      ensures steps == AddStep(old(steps), id, run)
    {
      if id !in steps {
        steps := steps[id := Step(run, StepPending)];
      }
    }

    method RequestMergeOf(imp: ImprovementId, diesAfterStep: bool) returns (outcome: Outcome)
      modifies this`steps, this`approvals
      ensures (State(), outcome) == RequestMerge(old(State()), imp, diesAfterStep)
      ensures old(Valid()) ==> Valid()
      ensures old(Valid()) && outcome.Requested? ==>
                && imp < |proposals| && Vouched(State(), proposals[imp]) && Stands(repo, proposals[imp])
                && IsItsRow(approvals, outcome.approval, imp, proposals[imp])
      ensures old(Valid()) && outcome.Requested? ==> Asked(old(State()), State(), imp, outcome.approval)
    {
      hide Reachable, Vouched, IsItsRow, Asked, Requestable, RowMatches, OnlyStepChanged;
      if Valid() {
        RequestReachable(State(), imp, diesAfterStep);
        RequestedIsVouched(State(), imp, diesAfterStep);
        RequestExactly(State(), imp, diesAfterStep);
      }
      if imp >= |proposals| {
        return Failed(NoProposal);
      }
      var p := proposals[imp];
      if p.status != ReadyForReview {
        return Failed(WrongStatus(p.status));
      }
      var moved := RecheckIdentities(p);
      if moved.Some? {
        return Failed(moved.value);
      }
      var untested := CheckTests(p);
      if untested.Some? {
        return Failed(untested.value);
      }
      var step := MergeStepOf(imp, p);
      CreateStep(step, p.run);
      if diesAfterStep {
        return Died;
      }
      var existing := FindByStep(approvals, step);
      if existing.Some? {
        if approvals[existing.value].digest != MergeDigest(imp, p) {
          return Failed(ApprovalMismatch);
        }
        return Requested(existing.value);
      }
      outcome := Requested(|approvals|);
      approvals := approvals + [Approval(step, MergeDigest(imp, p), Pending, Some(R2))];
      steps := SetStep(steps, step, StepWaiting);
    }

    /** Everything `merge` checks before it turns to git, in its order. */
    method CheckMerge(imp: ImprovementId, approval: nat) returns (error: Option<Error>)
      ensures error == MergeError(State(), imp, approval)
      ensures error.None? ==> imp < |proposals| && Stands(repo, proposals[imp])
    {
      if imp >= |proposals| {
        return Some(NoProposal);
      }
      if approval >= |approvals| {
        return Some(NoApproval);
      }
      var p := proposals[imp];
      var row := approvals[approval];
      if row.step != MergeStepOf(imp, p) {
        return Some(NotForThisProposal);
      }
      if row.status != Approved {
        return Some(NotApproved(row.status));
      }
      if row.digest != MergeDigest(imp, p) {
        return Some(ApprovalMismatch);
      }
      error := RecheckIdentities(p);
      if error.None? {
        error := CheckTests(p);
      }
    }

    method MergeProposal(imp: ImprovementId, approval: nat, auto: Option<Tree>, dies: Death) returns (outcome: Outcome)
      requires WellFormed(repo.commits)
      modifies this`steps, this`proposals, this`repo
      ensures (State(), outcome) == Merge(old(State()), imp, approval, auto, dies)
      ensures old(Valid()) ==> Valid()
      ensures old(Valid()) && !outcome.Failed? ==>
                && imp < |old(proposals)| && Vouched(old(State()), old(proposals)[imp])
                && (old(proposals)[imp].status == ReadyForReview <==> !Leftover(old(State()), old(proposals)[imp]))
      ensures outcome == Ok ==>
                imp < |proposals| && proposals[imp].status == MergedIn && proposals[imp].run !in repo.worktrees
      ensures old(Valid()) && !outcome.Failed? ==> LandedAs(old(State()), State(), imp, dies)
    {
      hide Reachable, Vouched, MergeBranch, MergeError, Stands, GitStops, LandedAs, Mergeable, Leftover, RemoveWorktree;
      if Valid() {
        MergeExactly(State(), imp, approval, auto, dies);
        MergeReachable(State(), imp, approval, auto, dies);
        if !Merge(State(), imp, approval, auto, dies).1.Failed? {
          MergeSafety(State(), imp, approval, auto, dies);
        }
      }
      var error := CheckMerge(imp, approval);
      if error.Some? {
        return Failed(error.value);
      }
      var p := proposals[imp];
      var (merged, result) := MergeBranch(repo, p.candidateBranch, auto);
      if result == Conflicted {
        return Failed(MergeConflict);
      }
      repo := merged;
      if dies == AfterGit {
        return Died;
      }
      proposals := proposals[imp := p.(status := MergedIn, mergeCommit := HeadCommit(repo, repo.head))];
      steps := SetStep(steps, MergeStepOf(imp, p), StepSucceeded);
      if dies == BeforeCleanup {
        return Died;
      }
      RemoveExactly(repo, p.run);
      repo := RemoveWorktree(repo, p.run);
      return Ok;
    }

    method Reject(imp: ImprovementId, dies: Death) returns (outcome: Outcome)
      modifies this`proposals, this`repo
      ensures (State(), outcome) == RejectProposal(old(State()), imp, dies)
      ensures old(Valid()) ==> Valid()
      ensures outcome == Ok ==>
                imp < |proposals| && proposals[imp].status == RejectedOut && proposals[imp].run !in repo.worktrees
    {
      if Valid() { RejectReachable(State(), imp, dies); }
      hide Reachable;
      if imp >= |proposals| {
        return Failed(NoProposal);
      }
      var p := proposals[imp];
      if p.status == MergedIn || p.status == RejectedOut {
        return Failed(WrongStatus(p.status));
      }
      proposals := proposals[imp := p.(status := RejectedOut)];
      if dies != Survives {
        return Died;
      }
      repo := RemoveWorktree(repo, p.run);
      return Ok;
    }
  }

  /** The row is the proposal's merge approval, for what the proposal is now, and
      its only one. */
  predicate IsItsRow(rows: seq<Row>, id: nat, imp: ImprovementId, p: Proposal) {
    && id < |rows| && rows[id].step == MergeStepOf(imp, p) && rows[id].digest == MergeDigest(imp, p)
    && forall i | 0 <= i < |rows| && rows[i].step == MergeStepOf(imp, p) :: i == id
  }

  lemma RequestedIsVouched(s: Store, imp: ImprovementId, dies: bool)
    requires Reachable(s)
    ensures
      var (s', outcome) := RequestMerge(s, imp, dies);
      outcome.Requested? ==>
        && imp < |s'.proposals| && Vouched(s', s'.proposals[imp])
        && IsItsRow(s'.approvals, outcome.approval, imp, s'.proposals[imp])
  {
    ReachableKeepsInv(s);
    RequestKeeps(s, imp, dies);
    RequestedRow(s, imp, dies);
    hide TestError, Onward, Inv, RequestMerge, Reachable;
    var (s', outcome) := RequestMerge(s, imp, dies);
    if outcome.Requested? {
      ReadyIsVouched(s, imp);
      OnlyRow(s', outcome.approval);
    }
  }

  lemma ReadyIsVouched(s: Store, imp: ImprovementId)
    requires Inv(s) && imp < |s.proposals| && s.proposals[imp].status == ReadyForReview
        && TestError(s, s.proposals[imp]).None?
    ensures Vouched(s, s.proposals[imp])
  {
    assert GoodProposal(s, s.proposals[imp]);
    TestResultExists(s.artifacts, s.proposals[imp].run, s.proposals[imp].candidate);
  }

  lemma RequestedRow(s: Store, imp: ImprovementId, dies: bool)
    ensures
      var (s', outcome) := RequestMerge(s, imp, dies);
      outcome.Requested? ==>
        && imp < |s.proposals| && s.proposals[imp].status == ReadyForReview && TestError(s, s.proposals[imp]).None?
        && s'.proposals == s.proposals && s'.artifacts == s.artifacts && outcome.approval < |s'.approvals|
        && s'.approvals[outcome.approval].step == MergeStepOf(imp, s.proposals[imp])
        && s'.approvals[outcome.approval].digest == MergeDigest(imp, s.proposals[imp])
  {
    hide Recheck, TestError;
  }

  lemma OnlyRow(s: Store, id: nat)
    requires Inv(s) && id < |s.approvals| && s.approvals[id].step.MergeStep?
    ensures forall i | 0 <= i < |s.approvals| && s.approvals[i].step == s.approvals[id].step :: i == id
  {
  }
}
