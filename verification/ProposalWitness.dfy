/** Histories that show where a claim about the merge protocol stops: a rejected
    proposal that merges, a merge that never reaches its target, and two proposals
    merged at one target and base. */
module ProposalWitness {
  import opened Base
  import opened ApprovalTable
  import opened Git
  import opened Proposals
  import opened ProposalProofs
  import opened ProposalTheorems
  import opened ProposalLanding
  import opened ProposalOnce

  const MAIN := "main"
  const BEFORE: Tree := map["f" := File(0, "old")]
  const AFTER: Tree := map["f" := File(0, "new")]
  const DAG: Dag := map[0 := Commit([], BEFORE), 1 := Commit([0], AFTER)]

  function BaseRepo(): Repo {
    Repo(map[0 := Commit([], BEFORE)], 1, map[MAIN := 0], OnBranch(MAIN), false, map[])
  }

  /** Both runs have committed their candidate: on their branch, or, detached, with
      the branch left at the base. */
  function CandidateRepo(detached: bool): Repo {
    var tip := if detached then 0 else 1;
    Repo(DAG, 2, map[MAIN := 0, RunBranch("r") := tip, RunBranch("q") := tip], OnBranch(MAIN), false,
         map["r" := WorktreeHead(detached, "r"), "q" := WorktreeHead(detached, "q")])
  }

  function WorktreeHead(detached: bool, run: string): Head {
    if detached then Detached(1) else OnBranch(RunBranch(run))
  }

  /** Two finished runs and nothing proposed yet. */
  function TwoRuns(detached: bool): Store {
    Store(map["r" := true, "q" := true],
          map[NodeStep("r") := Step("r", StepPending), NodeStep("q") := Step("q", StepPending)],
          [], [], [], CandidateRepo(detached))
  }

  lemma BranchesDiffer()
    ensures RunBranch("r") != MAIN && RunBranch("q") != MAIN && RunBranch("r") != RunBranch("q")
    ensures "r" != "q"
  {
    assert |RunBranch("r")| == 9 && |RunBranch("q")| == 9;
    assert RunBranch("r")[8] == 'r' && RunBranch("q")[8] == 'q';
    assert "r"[0] == 'r';
  }

  lemma DagFacts()
    ensures WellFormed(DAG) && IsMergeBase(DAG, 0, 1, Some(0))
    ensures Ancestor(DAG, 0, 0) && Ancestor(DAG, 0, 1) && !Ancestor(DAG, 1, 0)
    ensures Diff(BEFORE, AFTER) != map[]
  {
    assert Ancestor(DAG, 0, DAG[1].parents[0]);
    DiffRoundTrip(BEFORE, AFTER);
    assert BEFORE["f"] != AFTER["f"] by { assert "old"[0] != "new"[0]; }
  }

  // ------------------------------------------------------------------ two runs

  lemma Steps(s: Store, op: Op)
    requires Reachable(s) && WellFormed(s.repo.commits) && !op.DoPrepare?
    ensures Reachable(Apply(s, op))
  {
    ReachableStep(s, op);
  }

  lemma StartStep(s: Store, run: string)
    requires Reachable(s) && WellFormed(s.repo.commits) && run !in s.succeeded
    ensures Reachable(s.(succeeded := s.succeeded[run := false], repo := CreateWorktree(s.repo, run)))
  {
    Steps(s, StartRun(run));
    hide Reachable;
  }

  lemma FinishStep(s: Store, run: string)
    requires Reachable(s) && WellFormed(s.repo.commits) && run in s.succeeded
    ensures Reachable(s.(succeeded := s.succeeded[run := true]))
  {
    Steps(s, FinishRun(run, true));
    hide Reachable;
  }

  lemma NodeStepStep(s: Store, name: string, run: string)
    requires Reachable(s) && WellFormed(s.repo.commits)
    ensures Reachable(s.(steps := AddStep(s.steps, NodeStep(name), run)))
  {
    Steps(s, NodeStepAdded(name, run));
    hide Reachable;
  }

  lemma OutsideStep(s: Store, repo: Repo)
    requires Reachable(s) && WellFormed(s.repo.commits) && Evolved(s.repo, repo)
    ensures Reachable(s.(repo := repo))
  {
    Steps(s, Outside(repo));
    hide Reachable;
  }

  lemma ArtifactStep(s: Store, a: Artifact)
    requires Reachable(s) && WellFormed(s.repo.commits)
    ensures Reachable(s.(artifacts := s.artifacts + [a]))
  {
    Steps(s, ArtifactAdded(a));
    hide Reachable;
  }

  lemma ApproveStep(s: Store, id: nat)
    requires Reachable(s) && WellFormed(s.repo.commits)
    ensures Reachable(s.(approvals := Decide(s.approvals, id, Approved).0))
  {
    Steps(s, Decision(id, true));
    hide Reachable;
  }

  function Working(repo: Repo): Store {
    Store(map["r" := false, "q" := false], map[], [], [], [], repo)
  }

  function ForkedRepo(): Repo {
    CreateWorktree(CreateWorktree(BaseRepo(), "r"), "q")
  }

  lemma ForkedIs()
    ensures ValidRepo(CreateWorktree(BaseRepo(), "r")) && ValidRepo(ForkedRepo())
    ensures ForkedRepo().commits == BaseRepo().commits && ForkedRepo().next == 1
    ensures ForkedRepo().worktrees.Keys == {"r", "q"}
  {
    BranchesDiffer();
    hide RunBranch;
  }

  lemma ForkedEvolves(detached: bool)
    ensures ValidRepo(CreateWorktree(BaseRepo(), "r")) && ValidRepo(ForkedRepo())
    ensures Evolved(ForkedRepo(), CandidateRepo(detached))
  {
    ForkedIs();
    DagFacts();
    hide IsMergeBase, Ancestor, RunBranch, ForkedRepo;
  }

  lemma EmptyIsReachable(s: Store)
    requires Empty(s)
    ensures Reachable(s)
  {
    assert Run(s, []) == s;
  }

  lemma FirstStarts()
    ensures Reachable(Store(map["r" := false], map[], [], [], [], CreateWorktree(BaseRepo(), "r")))
  {
    var s := Store(map[], map[], [], [], [], BaseRepo());
    EmptyIsReachable(s);
    hide Reachable, CreateWorktree;
    StartStep(s, "r");
    assert s.succeeded["r" := false] == map["r" := false];
  }

  lemma BothStart()
    requires ValidRepo(CreateWorktree(BaseRepo(), "r"))
    ensures Reachable(Working(ForkedRepo()))
  {
    FirstStarts();
    BranchesDiffer();
    var s := Store(map["r" := false], map[], [], [], [], CreateWorktree(BaseRepo(), "r"));
    hide Reachable, CreateWorktree, RunBranch;
    StartStep(s, "q");
    assert s.succeeded["q" := false] == map["r" := false, "q" := false];
  }

  lemma RunsStart(detached: bool)
    ensures Reachable(Working(CandidateRepo(detached)))
  {
    ForkedEvolves(detached);
    BothStart();
    hide Evolved, Reachable, CreateWorktree, CandidateRepo, ForkedRepo;
    OutsideStep(Working(ForkedRepo()), CandidateRepo(detached));
  }

  lemma RunsFinish(detached: bool)
    ensures Reachable(TwoRuns(detached))
  {
    DagFacts();
    RunsStart(detached);
    BranchesDiffer();
    hide Reachable, Ancestor, IsMergeBase, RunBranch;
    var s0 := Working(CandidateRepo(detached));
    FinishStep(s0, "r");
    var s1 := s0.(succeeded := s0.succeeded["r" := true]);
    FinishStep(s1, "q");
    var s2 := s1.(succeeded := s1.succeeded["q" := true]);
    NodeStepStep(s2, "r", "r");
    var s3 := s2.(steps := AddStep(s2.steps, NodeStep("r"), "r"));
    NodeStepStep(s3, "q", "q");
    assert s3.(steps := AddStep(s3.steps, NodeStep("q"), "q")) == TwoRuns(detached);
  }

  // --------------------------------------------------- from candidate to approved

  /** A finished run with a candidate ahead of the checked-out target. */
  ghost predicate Ripe(s: Store, run: string) {
    && s.repo.commits == DAG && s.repo.head == OnBranch(MAIN) && !s.repo.dirty
    && MAIN in s.repo.branches && s.repo.branches[MAIN] == 0
    && run in s.succeeded && s.succeeded[run] && HasSteps(s.steps, run)
    && run in s.repo.worktrees && HeadCommit(s.repo, s.repo.worktrees[run]) == Some(1)
    && forall i | 0 <= i < |s.proposals| :: s.proposals[i].run != run
  }

  function Drafted(s: Store, run: string): Proposal
    requires run in s.repo.worktrees
  {
    var head := s.repo.worktrees[run];
    Proposal(run, MAIN, 0, if head.OnBranch? then head.branch else RunBranch(run), 1, Sha256(Diff(BEFORE, AFTER)),
             |s.artifacts|, Draft, None, [], None)
  }

  function Reviewed(s: Store, run: string): Proposal
    requires run in s.repo.worktrees
  {
    Drafted(s, run).(status := ReadyForReview, verdict := Some(|s.artifacts| + 1))
  }

  function Papers(run: string): seq<Artifact> {
    [Artifact(run, PatchKind, Missing), Artifact(run, VerdictKind, Doc(IsTrue, None)),
     Artifact(run, TestResultKind, Doc(IsTrue, Some(1)))]
  }

  function MergeRow(s: Store, run: string, status: Status): Row
    requires run in s.repo.worktrees
  {
    var imp := |s.proposals|;
    Approval(MergeStep(run, imp), MergeDigest(imp, Reviewed(s, run)), status, Some(R2))
  }

  /** The store once the run's proposal has been reviewed, requested and approved. */
  function AfterReview(s: Store, run: string): Store
    requires run in s.repo.worktrees
  {
    var step := MergeStep(run, |s.proposals|);
    Store(s.succeeded, SetStep(AddStep(s.steps, step, run), step, StepWaiting), s.artifacts + Papers(run),
          s.approvals + [MergeRow(s, run, Approved)], s.proposals + [Reviewed(s, run)], s.repo)
  }

  lemma Prepares(s: Store, run: string)
    requires Ripe(s, run)
    ensures WellFormed(s.repo.commits) && HonestGit(s, DoPrepare(run, Some(0), false))
    ensures Prepare(s, run, Some(0), false).0
            == s.(artifacts := s.artifacts + Papers(run)[..1], proposals := s.proposals + [Drafted(s, run)])
  {
    DagFacts();
    hide IsMergeBase, Ancestor, Diff, HasSteps, RunBranch;
  }

  function ReadyState(s: Store, run: string): Store
    requires run in s.repo.worktrees
  {
    s.(artifacts := s.artifacts + Papers(run), proposals := s.proposals + [Reviewed(s, run)])
  }

  lemma BecomesReady(s: Store, run: string)
    requires Reachable(s) && Ripe(s, run)
    ensures Reachable(ReadyState(s, run))
  {
    Prepares(s, run);
    hide Reachable, Prepare, HonestGit, Diff, WellFormed, Ripe, MarkReady, Drafted;
    PrepareReachable(s, run, Some(0), false);
    var s1 := s.(artifacts := s.artifacts + Papers(run)[..1], proposals := s.proposals + [Drafted(s, run)]);
    ArtifactStep(s1, Papers(run)[1]);
    var s2 := s1.(artifacts := s1.artifacts + [Papers(run)[1]]);
    ArtifactStep(s2, Papers(run)[2]);
    var s3 := s2.(artifacts := s2.artifacts + [Papers(run)[2]]);
    assert s3.artifacts == s.artifacts + Papers(run);
    MarkReachable(s3, |s.proposals|, |s.artifacts| + 1, []);
    MarksReady(s, run);
  }

  lemma MarksReady(s: Store, run: string)
    requires run in s.repo.worktrees
    ensures
      var drafted := s.(artifacts := s.artifacts + Papers(run), proposals := s.proposals + [Drafted(s, run)]);
      MarkReady(drafted, |s.proposals|, |s.artifacts| + 1, []).0 == ReadyState(s, run)
  {
    assert (s.artifacts + Papers(run))[|s.artifacts| + 1] == Papers(run)[1];
    hide Diff, RunBranch;
  }

  lemma StillStands(s: Store, run: string)
    requires Ripe(s, run)
    ensures Recheck(s.repo, Reviewed(s, run)).None?
    ensures TestResultPassed(s.artifacts + Papers(run), run, 1) == Found
  {
  }

  lemma NotRequestedYet(s: Store, run: string)
    requires Inv(s)
    ensures FindByStep(s.approvals, MergeStep(run, |s.proposals|)).None?
  {
    assert forall i | 0 <= i < |s.approvals| && s.approvals[i].step.MergeStep? ::
      GoodRow(s, s.approvals[i]) && s.approvals[i].step.improvement < |s.proposals|;
  }

  lemma IsRequested(s: Store, run: string)
    requires Inv(s) && Ripe(s, run)
    ensures
      var step := MergeStep(run, |s.proposals|);
      RequestMerge(ReadyState(s, run), |s.proposals|, false).0
      == ReadyState(s, run).(steps := SetStep(AddStep(s.steps, step, run), step, StepWaiting),
                             approvals := s.approvals + [MergeRow(s, run, Pending)])
  {
    NotRequestedYet(s, run);
    StillStands(s, run);
    hide Inv, Ripe, Diff, Recheck, TestResultPassed, FindByStep, RunBranch, AddStep, SetStep;
  }

  lemma PassesChecks(s: Store, run: string)
    requires Ripe(s, run)
    ensures MergeError(AfterReview(s, run), |s.proposals|, |s.approvals|).None?
  {
    StillStands(s, run);
    hide Ripe, Diff, Recheck, TestResultPassed, RunBranch, AddStep, SetStep;
  }

  lemma BecomesApproved(s: Store, run: string)
    requires Reachable(s) && Ripe(s, run)
    ensures Reachable(AfterReview(s, run)) && MergeError(AfterReview(s, run), |s.proposals|, |s.approvals|).None?
  {
    ReachableKeepsInv(s);
    BecomesReady(s, run);
    Prepares(s, run);
    PassesChecks(s, run);
    IsRequested(s, run);
    hide Inv, Reachable, Prepare, HonestGit, WellFormed, RequestMerge, MergeError, Reviewed, AddStep, SetStep;
    var ready := ReadyState(s, run);
    RequestReachable(ready, |s.proposals|, false);
    var requested := RequestMerge(ready, |s.proposals|, false).0;
    ApproveStep(requested, |s.approvals|);
    assert Decide(requested.approvals, |s.approvals|, Approved).0 == s.approvals + [MergeRow(s, run, Approved)];
  }

  // --------------------------------------------------------------- the witnesses

  lemma RunsAreRipe(detached: bool)
    ensures Ripe(TwoRuns(detached), "r") && Ripe(TwoRuns(detached), "q")
  {
    BranchesDiffer();
    var s := TwoRuns(detached);
    assert s.steps[NodeStep("r")].run == "r" && s.steps[NodeStep("q")].run == "q";
    hide RunBranch;
  }

  /** Rejected proposals can merge: approved, then rejected by a call that dies
      before it removes the worktree, one still merges into its target branch. */
  lemma RejectedProposalMerges() returns (s: Store)
    ensures Reachable(s) && WellFormed(s.repo.commits)
    ensures |s.proposals| == 1 && s.proposals[0].status == RejectedOut && Attended(s.repo, s.proposals[0])
    ensures Merge(s, 0, 0, None, Survives).1 == Ok
  {
    RunsFinish(false);
    RunsAreRipe(false);
    DagFacts();
    var start := TwoRuns(false);
    BecomesApproved(start, "r");
    var s0 := AfterReview(start, "r");
    RejectedStillMerges(s0, 0, 0);
    s := RejectProposal(s0, 0, BeforeCleanup).0;
    RejectReachable(s0, 0, BeforeCleanup);
    hide Reachable, MergeError, Ancestor, IsMergeBase, Diff, Merge, WellFormed, AddStep, SetStep, RunBranch;
    MergeLandsReviewed(s, 0, 0, None, Survives);
  }

  /** The candidate branch is at the base: git has nothing to merge. */
  lemma MergesInPlace(s: Store, run: string)
    requires Reachable(s) && Ripe(s, run) && s.repo.worktrees[run] == Detached(1)
    requires RunBranch(run) in s.repo.branches && s.repo.branches[RunBranch(run)] == 0
    ensures
      var imp := |s.proposals|;
      var s0 := AfterReview(s, run);
      && WellFormed(s0.repo.commits) && Reachable(s0)
      && Merge(s0, imp, |s.approvals|, None, Survives)
         == (CloseMerged(s0, imp, s.repo).(repo := RemoveWorktree(s.repo, run)), Ok)
  {
    BecomesApproved(s, run);
    DagFacts();
    hide Reachable, MergeError, Diff, IsMergeBase, RunBranch, HasSteps, RemoveWorktree;
  }

  /** A merge can succeed without its target moving at all: the candidate branch
      is not where the reviewed commit is. */
  lemma UnattendedMergeSucceeds() returns (s: Store)
    ensures Reachable(s) && WellFormed(s.repo.commits)
    ensures |s.proposals| == 1 && !Attended(s.repo, s.proposals[0]) && MAIN in s.repo.branches
    ensures Merge(s, 0, 0, None, Survives).1 == Ok
    ensures
      var after := Merge(s, 0, 0, None, Survives).0;
      && after.proposals[0].status == MergedIn && s.proposals[0].target == MAIN
      && MAIN in after.repo.branches && after.repo.branches[MAIN] == s.repo.branches[MAIN]
  {
    var start := TwoRuns(true);
    RunsFinish(true);
    RunsAreRipe(true);
    BranchesDiffer();
    MergesInPlace(start, "r");
    s := AfterReview(start, "r");
    hide Reachable, Merge, RunBranch, HasSteps;
  }

  lemma SecondIsRipe()
    ensures
      var s0 := AfterReview(TwoRuns(true), "r");
      var s1 := CloseMerged(s0, 0, s0.repo).(repo := RemoveWorktree(s0.repo, "r"));
      && Ripe(s1, "q") && s1.repo.worktrees["q"] == Detached(1) && |s1.proposals| == 1 && |s1.approvals| == 1
      && RunBranch("q") in s1.repo.branches && s1.repo.branches[RunBranch("q")] == 0
      && s1.proposals[0].status == MergedIn && s1.proposals[0].target == MAIN && s1.proposals[0].base == 0
  {
    BranchesDiffer();
    RunsAreRipe(true);
    var s0 := AfterReview(TwoRuns(true), "r");
    var s1 := CloseMerged(s0, 0, s0.repo).(repo := RemoveWorktree(s0.repo, "r"));
    assert s1.steps[NodeStep("q")].run == "q";
    hide RunBranch, Diff;
  }

  /** Two proposals can be merged at one target branch and base: when a merge does
      not advance its target, a second one finds it where it was. */
  lemma TwoMergedAtOneBase() returns (s: Store)
    ensures Reachable(s) && |s.proposals| == 2
    ensures s.proposals[0].status == MergedIn && s.proposals[1].status == MergedIn
    ensures s.proposals[0].target == s.proposals[1].target && s.proposals[0].base == s.proposals[1].base
  {
    RunsFinish(true);
    RunsAreRipe(true);
    BranchesDiffer();
    SecondIsRipe();
    var start := TwoRuns(true);
    MergesInPlace(start, "r");
    var s0 := AfterReview(start, "r");
    hide Reachable, Merge, RunBranch, HasSteps, RemoveWorktree, Ripe, HonestGit;
    MergeReachable(s0, 0, 0, None, Survives);
    var s1 := Merge(s0, 0, 0, None, Survives).0;
    MergesInPlace(s1, "q");
    var s2 := AfterReview(s1, "q");
    MergeReachable(s2, 1, 1, None, Survives);
    s := Merge(s2, 1, 1, None, Survives).0;
  }
}
