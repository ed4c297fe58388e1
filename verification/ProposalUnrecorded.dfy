/** What becomes of a merge that lands and dies before its row is closed. */
module ProposalUnrecorded {
  import opened Base
  import opened ApprovalTable
  import opened Git
  import opened Proposals
  import opened ProposalProofs
  import opened ProposalTheorems
  import opened ProposalLanding
  import opened ProposalOnce

  /** A merge that advanced its target and died, after git or before its clean-up,
      does not pass again: the target has moved. */
  lemma LandedCannotMergeAgain(s: Store, imp: ImprovementId, approval: nat, auto: Option<Tree>, dies: Death)
    requires Reachable(s) && WellFormed(s.repo.commits) && dies != Survives
    requires !Merge(s, imp, approval, auto, dies).1.Failed? && TargetAdvances(s.repo, s.proposals[imp])
    ensures MergeError(Merge(s, imp, approval, auto, dies).0, imp, approval) == Some(TargetMoved)
  {
    AdvancesExactly(s, imp, approval, auto, dies);
    ReachableKeepsInv(s);
    InvIsValid(s);
    var p := s.proposals[imp];
    MergeEvolves(s.repo, p.candidateBranch, auto);
    hide Inv, Reachable, MergeBranch, ValidRepo, TargetAdvances, WellFormed, Ancestor;
  }

  // ------------------------------------------------------------- never recorded

  /** The target is checked out and holds the candidate, which is still what the
      run's worktree is at; the row is open at a base the target has left behind. */
  ghost predicate Landed(s: Store, imp: ImprovementId, target: Branch, candidate: CommitId)
    requires WellFormed(s.repo.commits)
  {
    && imp < |s.proposals| && s.proposals[imp].status != MergedIn && s.proposals[imp].target == target
    && s.repo.head == OnBranch(target) && PastBase(s.repo, s.proposals[imp])
    && Ancestor(s.repo.commits, candidate, s.repo.branches[target])
    && (s.proposals[imp].run in s.repo.worktrees ==>
          HeadCommit(s.repo, s.repo.worktrees[s.proposals[imp].run]) == Some(candidate))
  }

  /** Nobody commits to the worktree or checks another branch out, and the target
      only moves forward. */
  ghost predicate Steady(r: Repo, r': Repo, run: string, target: Branch, candidate: CommitId)
    requires WellFormed(r'.commits)
  {
    && r'.head == OnBranch(target) && target in r.branches && target in r'.branches
    && Ancestor(r'.commits, r.branches[target], r'.branches[target])
    && (run in r'.worktrees ==> HeadCommit(r', r'.worktrees[run]) == Some(candidate))
  }

  ghost predicate AllSteady(s: Store, ops: seq<Op>, run: string, target: Branch, candidate: CommitId)
    decreases |ops|
  {
    ops == [] ||
    (&& WellFormed(Apply(s, ops[0]).repo.commits)
     && Steady(s.repo, Apply(s, ops[0]).repo, run, target, candidate)
     && AllSteady(Apply(s, ops[0]), ops[1..], run, target, candidate))
  }

  /** The only merge base of a branch and a commit it already contains is that
      commit, so there is nothing left to prepare. */
  lemma ContainedHasEmptyDiff(s: Store, run: string, mergeBase: Option<CommitId>, dies: bool, candidate: CommitId)
    requires WellFormed(s.repo.commits) && s.repo.head.OnBranch? && HonestGit(s, DoPrepare(run, mergeBase, dies))
    requires run in s.repo.worktrees && HeadCommit(s.repo, s.repo.worktrees[run]) == Some(candidate)
    requires s.repo.head.branch in s.repo.branches
    requires Ancestor(s.repo.commits, candidate, s.repo.branches[s.repo.head.branch])
    ensures Prepare(s, run, mergeBase, dies).0 == s && Prepare(s, run, mergeBase, dies).1.Failed?
  {
    var d := s.repo.commits;
    if mergeBase.Some? {
      assert Ancestor(d, candidate, candidate);
      assert mergeBase.value == candidate;
      DiffRoundTrip(TreeOf(s.repo, candidate), TreeOf(s.repo, candidate));
    }
    hide Ancestor, IsMergeBase, WellFormed;
  }

  lemma OwnPrepareFails(
    s: Store, mergeBase: Option<CommitId>, dies: bool, imp: ImprovementId, target: Branch, c: CommitId)
    requires WellFormed(s.repo.commits) && Landed(s, imp, target, c)
    requires HonestGit(s, DoPrepare(s.proposals[imp].run, mergeBase, dies))
    ensures
      var (s', result) := Prepare(s, s.proposals[imp].run, mergeBase, dies);
      s' == s && result.Failed?
  {
    var run := s.proposals[imp].run;
    if run in s.repo.worktrees {
      ContainedHasEmptyDiff(s, run, mergeBase, dies, c);
    }
    hide Ancestor, HonestGit, Diff, WellFormed;
  }

  lemma OtherPrepareLeavesRow(s: Store, run: string, mergeBase: Option<CommitId>, dies: bool, imp: ImprovementId)
    requires imp < |s.proposals| && s.proposals[imp].run != run
    ensures
      var s' := Prepare(s, run, mergeBase, dies).0;
      imp < |s'.proposals| && s'.proposals[imp] == s.proposals[imp]
  {
    hide ReadIdentities;
  }

  lemma PrepareLeavesOpen(
    s: Store, run: string, mergeBase: Option<CommitId>, dies: bool, imp: ImprovementId, target: Branch, c: CommitId)
    requires WellFormed(s.repo.commits) && Landed(s, imp, target, c)
    requires HonestGit(s, DoPrepare(run, mergeBase, dies))
    ensures
      var s' := Prepare(s, run, mergeBase, dies).0;
      imp < |s'.proposals| && s'.proposals[imp] == s.proposals[imp]
  {
    LandedIndex(s, imp, target, c);
    hide Landed, HonestGit, Prepare;
    if run == s.proposals[imp].run {
      OwnPrepareFails(s, mergeBase, dies, imp, target, c);
    } else {
      OtherPrepareLeavesRow(s, run, mergeBase, dies, imp);
    }
  }

  lemma MergeLeavesOpen(
    s: Store, other: ImprovementId, approval: nat, auto: Option<Tree>, dies: Death, imp: ImprovementId)
    requires WellFormed(s.repo.commits) && imp < |s.proposals| && PastBase(s.repo, s.proposals[imp])
    ensures
      var s' := Merge(s, other, approval, auto, dies).0;
      imp < |s'.proposals| && s'.proposals[imp] == s.proposals[imp]
  {
    hide MergeBranch, RemoveWorktree, Ancestor;
  }

  /** The row's identities, and that it is not recorded as merged. */
  ghost predicate StaysOpen(s: Store, s': Store, imp: ImprovementId)
    requires imp < |s.proposals|
  {
    && imp < |s'.proposals| && s'.proposals[imp].status != MergedIn && s'.proposals[imp].run == s.proposals[imp].run
    && s'.proposals[imp].target == s.proposals[imp].target && s'.proposals[imp].base == s.proposals[imp].base
  }

  lemma OthersLeaveOpen(s: Store, op: Op, imp: ImprovementId)
    requires imp < |s.proposals| && s.proposals[imp].status != MergedIn && !op.DoPrepare? && !op.DoMerge?
    ensures StaysOpen(s, Apply(s, op), imp)
  {
    hide CreateWorktree, Evolved, RemoveWorktree;
  }

  lemma StepLeavesOpen(s: Store, op: Op, imp: ImprovementId, target: Branch, c: CommitId)
    requires Inv(s) && WellFormed(s.repo.commits) && Landed(s, imp, target, c)
    ensures StaysOpen(s, Apply(s, op), imp)
  {
    hide Inv, Prepare, Merge, HonestGit, PastBase, Ancestor;
    match op
    case DoPrepare(run, mergeBase, dies) =>
      if HonestGit(s, op) { PrepareLeavesOpen(s, run, mergeBase, dies, imp, target, c); }
    case DoMerge(other, approval, auto, dies) => MergeLeavesOpen(s, other, approval, auto, dies, imp);
    case _ => OthersLeaveOpen(s, op, imp);
  }

  lemma StepStaysLanded(s: Store, s': Store, imp: ImprovementId, target: Branch, c: CommitId)
    requires ValidRepo(s.repo) && ValidRepo(s'.repo) && Grows(s.repo.commits, s'.repo.commits)
    requires Landed(s, imp, target, c) && StaysOpen(s, s', imp)
    requires Steady(s.repo, s'.repo, s.proposals[imp].run, target, c)
    ensures Landed(s', imp, target, c)
  {
    var base, was, now := s.proposals[imp].base, s.repo.branches[target], s'.repo.branches[target];
    AncestorStable(s.repo.commits, s'.repo.commits, base, was);
    AncestorStable(s.repo.commits, s'.repo.commits, c, was);
    AncestorTransitive(s'.repo.commits, base, was, now);
    AncestorTransitive(s'.repo.commits, c, was, now);
    AncestorIsOlder(s'.repo.commits, base, was);
    AncestorIsOlder(s'.repo.commits, was, now);
  }

  lemma {:induction false} RunStaysLanded(s: Store, ops: seq<Op>, imp: ImprovementId, target: Branch, c: CommitId)
    requires Inv(s) && WellFormed(s.repo.commits) && Landed(s, imp, target, c)
    requires AllSteady(s, ops, s.proposals[imp].run, target, c)
    ensures WellFormed(Run(s, ops).repo.commits) && Landed(Run(s, ops), imp, target, c)
    decreases |ops|
  {
    hide Inv, Apply, Landed, Steady, WellFormed;
    if ops != [] {
      var next := Apply(s, ops[0]);
      LandedIndex(s, imp, target, c);
      StepLeavesOpen(s, ops[0], imp, target, c);
      ApplyKeeps(s, ops[0]);
      InvIsValid(s);
      OnwardGrows(s, next);
      StepStaysLanded(s, next, imp, target, c);
      RunStaysLanded(next, ops[1..], imp, target, c);
    }
  }

  lemma LandedIndex(s: Store, imp: ImprovementId, target: Branch, c: CommitId)
    requires WellFormed(s.repo.commits) && Landed(s, imp, target, c)
    ensures imp < |s.proposals| && s.proposals[imp].status != MergedIn
  {
  }

  /** What git leaves of an attended merge. */
  lemma AttendedGitLands(r: Repo, p: Proposal, auto: Option<Tree>)
    requires ValidRepo(r) && Attended(r, p) && p.target in r.branches && r.branches[p.target] == p.base
    requires Ancestor(r.commits, p.base, p.candidate) && !Ancestor(r.commits, p.candidate, p.base)
    requires p.candidate in r.commits && p.candidate != p.base
    requires p.run in r.worktrees && HeadCommit(r, r.worktrees[p.run]) == Some(p.candidate)
    ensures
      var (r', result) := MergeBranch(r, p.candidateBranch, auto);
      && result == Merged && WellFormed(r'.commits) && r'.head == r.head && PastBase(r', p)
      && Ancestor(r'.commits, p.candidate, r'.branches[p.target])
      && r'.worktrees == r.worktrees && HeadCommit(r', r'.worktrees[p.run]) == Some(p.candidate)
  {
    AttendedMerge(r, p, auto);
    MergeEvolves(r, p.candidateBranch, auto);
    var r' := Advance(r, Commit([p.base, p.candidate], r.commits[p.candidate].tree));
    var landed := r'.branches[p.target];
    EvolvedIsValid(r, r');
    hide MergeBranch, ValidRepo, Attended;
    AdvancedIsPast(r', p.target, p.base, p.candidate);
    assert [p.base, p.candidate][1] == p.candidate && r'.commits[landed].parents[1] == p.candidate;
    assert Ancestor(r'.commits, p.candidate, r'.commits[landed].parents[1]);
  }

  /** The merge that dies after git, seen as git leaves it. */
  lemma AttendedLands(s: Store, imp: ImprovementId, approval: nat, auto: Option<Tree>)
    requires Inv(s) && WellFormed(s.repo.commits) && MergeError(s, imp, approval).None?
    requires s.proposals[imp].status != MergedIn && Attended(s.repo, s.proposals[imp])
    ensures
      var p := s.proposals[imp];
      var s' := Merge(s, imp, approval, auto, AfterGit).0;
      s'.proposals == s.proposals && WellFormed(s'.repo.commits) && Landed(s', imp, p.target, p.candidate)
  {
    RecheckedFacts(s, imp, approval);
    AttendedGitLands(s.repo, s.proposals[imp], auto);
    hide Inv, MergeBranch, Ancestor, PastBase, WellFormed, ValidRepo;
  }

  lemma LandedDoesNotPass(s: Store, imp: ImprovementId, approval: nat, target: Branch, c: CommitId)
    requires WellFormed(s.repo.commits) && Landed(s, imp, target, c)
    ensures MergeError(s, imp, approval).Some?
  {
    hide Ancestor;
  }

  /** An attended merge that dies after git is never recorded: while the target
      stays checked out and only moves forward, and the worktree stays where it was,
      no merge of the proposal passes, no `prepare` of its run finds a difference,
      and its row is never closed as merged. */
  lemma LandedIsNeverRecorded(s: Store, imp: ImprovementId, approval: nat, auto: Option<Tree>, later: seq<Op>)
    requires Reachable(s) && WellFormed(s.repo.commits)
    requires MergeError(s, imp, approval).None? && s.proposals[imp].status != MergedIn
    requires Attended(s.repo, s.proposals[imp])
    requires
      var p := s.proposals[imp];
      AllSteady(Merge(s, imp, approval, auto, AfterGit).0, later, p.run, p.target, p.candidate)
    ensures
      var now := Run(Merge(s, imp, approval, auto, AfterGit).0, later);
      && imp < |now.proposals| && now.proposals[imp].status != MergedIn
      && (forall a: nat :: MergeError(now, imp, a).Some?)
      && (forall mergeBase, dies | HonestGit(now, DoPrepare(now.proposals[imp].run, mergeBase, dies)) ::
            Prepare(now, now.proposals[imp].run, mergeBase, dies).1.Failed?)
  {
    hide Inv, Reachable, Merge, Landed, AllSteady, Run, Prepare, HonestGit, WellFormed;
    ReachableKeepsInv(s);
    var p := s.proposals[imp];
    var landed := Merge(s, imp, approval, auto, AfterGit).0;
    var now := Run(landed, later);
    AttendedLands(s, imp, approval, auto);
    MergeKeeps(s, imp, approval, auto, AfterGit);
    RunStaysLanded(landed, later, imp, p.target, p.candidate);
    LandedIndex(now, imp, p.target, p.candidate);
    forall a: nat ensures MergeError(now, imp, a).Some? {
      LandedDoesNotPass(now, imp, a, p.target, p.candidate);
    }
    forall mergeBase, dies | HonestGit(now, DoPrepare(now.proposals[imp].run, mergeBase, dies))
      ensures Prepare(now, now.proposals[imp].run, mergeBase, dies).1.Failed?
    {
      OwnPrepareFails(now, mergeBase, dies, imp, p.target, p.candidate);
    }
  }
}
