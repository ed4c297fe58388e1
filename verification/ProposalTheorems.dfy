/** The safety results about the improvement merge protocol. */
module ProposalTheorems {
  import opened Base
  import opened ApprovalTable
  import opened Git
  import opened Proposals
  import opened ProposalProofs

  predicate Closed(p: Proposal) {
    p.status == MergedIn || p.status == RejectedOut
  }

  /** A closed proposal whose worktree is still there. */
  predicate Leftover(s: Store, p: Proposal) {
    Closed(p) && p.run in s.repo.worktrees
  }

  /** No merge or reject dies between closing its row and removing the worktree. */
  predicate Tidy(op: Op) {
    && (op.DoMerge? ==> op.dies != BeforeCleanup)
    && (op.DoReject? ==> op.dies == Survives)
  }

  predicate AllTidy(ops: seq<Op>) {
    forall i | 0 <= i < |ops| :: Tidy(ops[i])
  }

  ghost predicate TidilyReachable(s: Store) {
    exists start: Store, ops: seq<Op> :: Empty(start) && AllTidy(ops) && Run(start, ops) == s
  }

  ghost predicate NoLeftover(s: Store) {
    forall i | 0 <= i < |s.proposals| :: !Leftover(s, s.proposals[i])
  }

  // ------------------------------------------------- histories without a window

  lemma PrepareKeepsClosed(s: Store, run: string, mergeBase: Option<CommitId>, dies: bool)
    requires Inv(s) && NoLeftover(s)
    ensures NoLeftover(Prepare(s, run, mergeBase, dies).0)
  {
    hide Inv, HonestGit, GoodProposal;
    var s' := Prepare(s, run, mergeBase, dies).0;
    assert s'.repo == s.repo;
    if ReadIdentities(s, run, mergeBase).1.None? && FindProposal(s.proposals, run).Some? {
      var imp := FindProposal(s.proposals, run).value;
      assert !Leftover(s, s.proposals[imp]);
    }
  }

  lemma CloseKeepsClosed(s: Store, s': Store, imp: ImprovementId)
    requires Inv(s) && NoLeftover(s) && imp < |s.proposals| && !Closed(s.proposals[imp])
    requires |s'.proposals| == |s.proposals| && s'.proposals[imp].run == s.proposals[imp].run
    requires forall i | 0 <= i < |s.proposals| && i != imp :: s'.proposals[i] == s.proposals[i]
    requires s'.repo.worktrees.Keys <= s.repo.worktrees.Keys
    requires s.proposals[imp].run !in s'.repo.worktrees || !Closed(s'.proposals[imp])
    ensures NoLeftover(s')
  {
  }

  lemma MergeKeepsClosed(s: Store, imp: ImprovementId, approval: nat, auto: Option<Tree>, dies: Death)
    requires Inv(s) && NoLeftover(s) && dies != BeforeCleanup
    ensures NoLeftover(Merge(s, imp, approval, auto, dies).0)
  {
    if MergeError(s, imp, approval).None? {
      var p := s.proposals[imp];
      assert !Leftover(s, p);
      var r := MergeBranch(s.repo, p.candidateBranch, auto).0;
      MergeEvolves(s.repo, p.candidateBranch, auto);
      RemoveWorktreeEvolves(r, p.run);
      hide MergeBranch, RemoveWorktree, MergeError, Inv, NoLeftover, ValidRepo;
      CloseKeepsClosed(s, Land(s, imp, auto, dies).0, imp);
    }
  }

  lemma RejectKeepsClosed(s: Store, imp: ImprovementId)
    requires Inv(s) && NoLeftover(s)
    ensures NoLeftover(RejectProposal(s, imp, Survives).0)
  {
    if imp < |s.proposals| && !Closed(s.proposals[imp]) {
      RemoveWorktreeEvolves(s.repo, s.proposals[imp].run);
      hide RemoveWorktree;
      CloseKeepsClosed(s, RejectProposal(s, imp, Survives).0, imp);
    }
  }

  lemma StartRunKeepsClosed(s: Store, run: string)
    requires Inv(s) && NoLeftover(s) && run !in s.succeeded
    ensures NoLeftover(s.(succeeded := s.succeeded[run := false], repo := CreateWorktree(s.repo, run)))
  {
  }

  lemma OutsideKeepsClosed(s: Store, repo: Repo)
    requires NoLeftover(s) && Evolved(s.repo, repo)
    ensures NoLeftover(s.(repo := repo))
  {
  }

  lemma BookkeepingKeepsClosed(s: Store, op: Op)
    requires NoLeftover(s)
    requires op.DoMarkReady? || op.DoRequest? || op.Decision? || op.FinishRun? || op.NodeStepAdded?
        || op.ArtifactAdded? || op.OtherApproval?
    ensures NoLeftover(Apply(s, op))
  {
  }

  lemma TidyKeepsClosed(s: Store, op: Op)
    requires Inv(s) && NoLeftover(s) && Tidy(op)
    ensures NoLeftover(Apply(s, op))
  {
    InvIsValid(s);
    hide Inv, CreateWorktree, Prepare, Merge, RejectProposal, NoLeftover, Evolved;
    match op
    case DoPrepare(run, mergeBase, dies) => PrepareKeepsClosed(s, run, mergeBase, dies);
    case DoMerge(imp, approval, auto, dies) => MergeKeepsClosed(s, imp, approval, auto, dies);
    case DoReject(imp, dies) => RejectKeepsClosed(s, imp);
    case StartRun(run) => if run !in s.succeeded { StartRunKeepsClosed(s, run); }
    case Outside(repo) => if Evolved(s.repo, repo) { OutsideKeepsClosed(s, repo); }
    case _ => BookkeepingKeepsClosed(s, op);
  }

  lemma TidyTail(ops: seq<Op>)
    requires ops != [] && AllTidy(ops)
    ensures Tidy(ops[0]) && AllTidy(ops[1..])
  {
  }

  lemma {:induction false} TidyRunKeepsClosed(s: Store, ops: seq<Op>)
    requires Inv(s) && NoLeftover(s) && AllTidy(ops)
    ensures NoLeftover(Run(s, ops))
    decreases |ops|
  {
    hide Inv, NoLeftover, Apply;
    if ops != [] {
      TidyTail(ops);
      ApplyKeeps(s, ops[0]);
      TidyKeepsClosed(s, ops[0]);
      TidyRunKeepsClosed(Apply(s, ops[0]), ops[1..]);
    }
  }

  /** When no close dies before its clean-up, nothing is ever left over: then
      closed rows stay closed and only proposals under review merge. */
  lemma TidyHistoriesLeaveNothing(s: Store)
    requires TidilyReachable(s)
    ensures Reachable(s) && NoLeftover(s)
  {
    var start, ops :| Empty(start) && AllTidy(ops) && Run(start, ops) == s;
    RunKeeps(start, ops);
    TidyRunKeepsClosed(start, ops);
  }

  // ------------------------------------------------------------- what merges

  lemma {:induction false} TestResultExists(artifacts: seq<Artifact>, run: string, candidate: CommitId)
    requires TestResultPassed(artifacts, run, candidate) == Found
    ensures exists k | 0 <= k < |artifacts| ::
              artifacts[k] == Artifact(run, TestResultKind, Doc(IsTrue, Some(candidate)))
    decreases |artifacts|
  {
    var n := |artifacts| - 1;
    if artifacts[n] != Artifact(run, TestResultKind, Doc(IsTrue, Some(candidate))) {
      TestResultExists(artifacts[..n], run, candidate);
      var k :| 0 <= k < n && artifacts[..n][k] == Artifact(run, TestResultKind, Doc(IsTrue, Some(candidate)));
      assert artifacts[k] == artifacts[..n][k];
    }
  }

  /** What `merge` relies on: a passed verdict, and a passing test result for
      exactly the candidate commit. */
  ghost predicate Vouched(s: Store, p: Proposal) {
    && p.verdict.Some? && VerdictPassed(s.artifacts, p.run, p.verdict.value) == Some(true)
    && exists k | 0 <= k < |s.artifacts| ::
         s.artifacts[k] == Artifact(p.run, TestResultKind, Doc(IsTrue, Some(p.candidate)))
  }

  lemma PassingChecks(s: Store, imp: ImprovementId, approval: nat)
    requires Inv(s) && MergeError(s, imp, approval).None?
    ensures
      var p := s.proposals[imp];
      p.run in s.repo.worktrees && p.status != Draft && Vouched(s, p)
  {
    var p := s.proposals[imp];
    assert GoodProposal(s, p) && GoodRow(s, s.approvals[approval]);
    TestResultExists(s.artifacts, p.run, p.candidate);
  }

  /** Exactly when a call that passes every check of `merge` is a merge of a
      proposal under review: the status is never read, so a closed proposal whose
      worktree was left behind passes as well. */
  lemma MergeStatusExactly(s: Store, imp: ImprovementId, approval: nat)
    requires Reachable(s) && MergeError(s, imp, approval).None?
    ensures s.proposals[imp].status == ReadyForReview <==> !Leftover(s, s.proposals[imp])
  {
    ReachableKeepsInv(s);
    PassingChecks(s, imp, approval);
  }

  /** Merge safety, over every history, crashes included: a merge that gets as far
      as git is for a proposal whose verdict passed, with a passing test result for
      exactly its candidate commit; and the proposal is under review exactly when
      it is not a closed one whose worktree was left behind. */
  lemma MergeSafety(s: Store, imp: ImprovementId, approval: nat, auto: Option<Tree>, dies: Death)
    requires Reachable(s) && WellFormed(s.repo.commits)
    requires !Merge(s, imp, approval, auto, dies).1.Failed?
    ensures
      var p := s.proposals[imp];
      && Vouched(s, p)
      && (p.status == ReadyForReview <==> !Leftover(s, p))
  {
    ReachableKeepsInv(s);
    hide Inv, Reachable, Land;
    PassingChecks(s, imp, approval);
  }

  /** What an approval of this proposal is over. */
  function Tuple(imp: ImprovementId, p: Proposal): Payload {
    MergeAction(imp, p.run, p.target, p.base, p.candidateBranch, p.candidate, p.diffDigest, p.verdict, p.validations)
  }

  /** The tuple that merges is the tuple that was approved: whatever happens
      after an approval row exists, a merge under it succeeds only while the
      proposal's (target, base, candidate, diff digest, verdict, validations) are
      exactly those the row was created with. */
  lemma ApprovedTupleMerges(
    s: Store, approval: nat, later: seq<Op>, imp: ImprovementId, auto: Option<Tree>, dies: Death)
    requires Reachable(s) && approval < |s.approvals| && WellFormed(Run(s, later).repo.commits)
    requires Merge(Run(s, later), imp, approval, auto, dies).1 == Ok
    ensures
      var now := Run(s, later);
      && s.approvals[approval].digest.preimage == Tuple(imp, now.proposals[imp])
      && now.approvals[approval].status == Approved
      && (s.approvals[approval].status == Pending || s.approvals[approval].status == Approved)
  {
    ReachableKeepsInv(s);
    RunKeeps(s, later);
    hide Inv, Reachable, Run, Land;
    assert RowEvolves(s.approvals[approval], Run(s, later).approvals[approval]);
  }

  /** The window: if a reject dies after closing the row, every merge that would
      have gone through still does, now for a rejected proposal. */
  lemma RejectedStillMerges(s: Store, imp: ImprovementId, approval: nat)
    requires Reachable(s) && MergeError(s, imp, approval).None? && !Closed(s.proposals[imp])
    ensures
      var s' := RejectProposal(s, imp, BeforeCleanup).0;
      s'.proposals[imp].status == RejectedOut && MergeError(s', imp, approval).None?
  {
  }

  // -------------------------------------------------------------- finding a row

  lemma MergeRowFound(s: Store, approval: nat)
    requires Inv(s) && approval < |s.approvals| && s.approvals[approval].step.MergeStep?
    ensures FindByStep(s.approvals, s.approvals[approval].step) == Some(approval)
  {
  }

  lemma OwnProposalFound(s: Store, imp: ImprovementId)
    requires Inv(s) && imp < |s.proposals|
    ensures FindProposal(s.proposals, s.proposals[imp].run) == Some(imp)
  {
  }
}
