/** What a second `prepare` does to an approval. */
module ProposalStale {
  import opened Base
  import opened ApprovalTable
  import opened Git
  import opened Proposals
  import opened ProposalProofs
  import opened ProposalTheorems
  import opened ProposalOutcomes

  /** At most one approval per proposal, ever, so once it no longer matches the
      proposal, no request and no merge can go through. */
  lemma StaleApprovalIsUseless(s: Store, imp: ImprovementId, approval: nat, dies: bool, other: nat)
    requires Reachable(s) && imp < |s.proposals| && approval < |s.approvals|
    requires s.approvals[approval].step == MergeStepOf(imp, s.proposals[imp])
    requires s.approvals[approval].digest != MergeDigest(imp, s.proposals[imp])
    ensures !RequestMerge(s, imp, dies).1.Requested? && RequestMerge(s, imp, dies).0.approvals == s.approvals
    ensures MergeError(s, imp, other).Some?
  {
    ReachableKeepsInv(s);
    var step := MergeStepOf(imp, s.proposals[imp]);
    MergeRowFound(s, approval);
    assert other < |s.approvals| && other != approval ==> s.approvals[other].step != step;
  }

  /** Marking the proposal ready with this verdict makes the row match it again. */
  ghost predicate Restores(
    s: Store, imp: ImprovementId, approval: nat, verdict: ArtifactId, validations: seq<ArtifactId>)
    requires approval < |s.approvals|
  {
    var (s', outcome) := MarkReady(s, imp, verdict, validations);
    outcome == Ok && imp < |s'.proposals| && s'.approvals[approval].digest == Sha256(Tuple(imp, s'.proposals[imp]))
  }

  /** Git still says what was approved: the target is checked out, the merge base and
      the worktree's commit, branch and difference are the approved ones. */
  predicate StillRead(s: Store, approved: Payload, mergeBase: Option<CommitId>) {
    && approved.MergeAction? && s.repo.head == OnBranch(approved.target) && mergeBase == Some(approved.base)
    && approved.run in s.repo.worktrees && IsHead(s.repo, s.repo.worktrees[approved.run], approved.candidate)
    && s.repo.worktrees[approved.run] in {OnBranch(approved.candidateBranch), Detached(approved.candidate)}
    && (s.repo.worktrees[approved.run].Detached? ==> approved.candidateBranch == RunBranch(approved.run))
    && approved.diffDigest == Sha256(Diff(TreeOf(s.repo, approved.base), TreeOf(s.repo, approved.candidate)))
  }

  /** A fresh draft has the approved identities exactly if git still says so. */
  lemma SameReadingSameIdentities(s: Store, p: Proposal, approved: Payload, mergeBase: Option<CommitId>)
    requires ReadsBack(s, p, mergeBase) && approved.MergeAction? && approved.run == p.run
    ensures StillRead(s, approved, mergeBase)
            <==> && approved.target == p.target && approved.base == p.base && approved.candidate == p.candidate
                 && approved.candidateBranch == p.candidateBranch && approved.diffDigest == p.diffDigest
  {
    hide Diff, TreeOf;
  }

  /** The row the run has is the one that is written over. */
  lemma PreparedInPlace(s: Store, imp: ImprovementId, mergeBase: Option<CommitId>)
    requires Inv(s) && imp < |s.proposals| && Prepare(s, s.proposals[imp].run, mergeBase, false).1 == Ok
    ensures
      var s' := Prepare(s, s.proposals[imp].run, mergeBase, false).0;
      && |s'.proposals| == |s.proposals| && s'.approvals == s.approvals
      && s'.proposals[imp].run == s.proposals[imp].run && ReadsBack(s, s'.proposals[imp], mergeBase)
  {
    hide Prepare, ReadsBack;
    var run := s.proposals[imp].run;
    PrepareExactly(s, run, mergeBase, false);
    var after := Prepare(s, run, mergeBase, false).0.proposals;
    var i :| PreparedAt(s, after, run, mergeBase, i);
    assert i == imp;
  }

  /** A successful `prepare` of a proposal that has an approval row leaves that row
      unmatched. Marking the proposal ready can make it match again exactly when git
      still says what was approved: then the approved verdict and validations do. */
  lemma RePrepareVoidsApproval(s: Store, imp: ImprovementId, approval: nat, mergeBase: Option<CommitId>)
    requires Reachable(s) && imp < |s.proposals| && approval < |s.approvals|
    requires s.approvals[approval].step == MergeStep(s.proposals[imp].run, imp)
    requires HonestGit(s, DoPrepare(s.proposals[imp].run, mergeBase, false))
    requires Prepare(s, s.proposals[imp].run, mergeBase, false).1 == Ok
    ensures
      var prepared := Prepare(s, s.proposals[imp].run, mergeBase, false).0;
      && imp < |prepared.proposals| && approval < |prepared.approvals|
      && prepared.approvals[approval].digest != Sha256(Tuple(imp, prepared.proposals[imp]))
      && ((exists verdict, validations :: Restores(prepared, imp, approval, verdict, validations))
          <==> StillRead(s, s.approvals[approval].digest.preimage, mergeBase))
  {
    hide Prepare, Inv, Reachable, HonestGit, GoodProposal, StillRead;
    ReachableKeepsInv(s);
    var run := s.proposals[imp].run;
    var prepared := Prepare(s, run, mergeBase, false).0;
    PrepareKeeps(s, run, mergeBase, false);
    PreparedInPlace(s, imp, mergeBase);
    MergeRowIsOver(s, approval);
    SameReadingSameIdentities(s, prepared.proposals[imp], s.approvals[approval].digest.preimage, mergeBase);
    RestoredExactly(prepared, imp, approval);
  }

  lemma MergeRowIsOver(s: Store, approval: nat)
    requires Inv(s) && approval < |s.approvals| && s.approvals[approval].step.MergeStep?
    ensures
      var approved := s.approvals[approval].digest.preimage;
      approved.MergeAction? && approved.run == s.approvals[approval].step.run && approved.verdict.Some?
  {
    assert GoodRow(s, s.approvals[approval]);
  }

  lemma RestoredExactly(s: Store, imp: ImprovementId, approval: nat)
    requires Inv(s) && imp < |s.proposals| && approval < |s.approvals| && s.proposals[imp].status == Draft
    requires s.approvals[approval].step == MergeStep(s.proposals[imp].run, imp)
    ensures
      var (approved, p) := (s.approvals[approval].digest.preimage, s.proposals[imp]);
      (exists verdict, validations :: Restores(s, imp, approval, verdict, validations))
      <==> && approved.MergeAction? && approved.target == p.target && approved.base == p.base
           && approved.candidate == p.candidate && approved.candidateBranch == p.candidateBranch
           && approved.diffDigest == p.diffDigest
  {
    var (approved, p) := (s.approvals[approval].digest.preimage, s.proposals[imp]);
    assert GoodRow(s, s.approvals[approval]);
    hide Inv;
    if approved.target == p.target && approved.base == p.base && approved.candidate == p.candidate
        && approved.candidateBranch == p.candidateBranch && approved.diffDigest == p.diffDigest {
      assert Restores(s, imp, approval, approved.verdict.value, approved.validations);
    }
  }
}
