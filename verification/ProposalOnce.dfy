/** How many proposals can be merged at one target branch and base. */
module ProposalOnce {
  import opened Base
  import opened ApprovalTable
  import opened Git
  import opened Proposals
  import opened ProposalProofs
  import opened ProposalLanding

  /** Branches that some merged proposal targets only move forward. */
  ghost predicate Forward(s: Store, s': Store)
    requires WellFormed(s'.repo.commits)
  {
    forall i | 0 <= i < |s.proposals| && s.proposals[i].status == MergedIn
        && s.proposals[i].target in s.repo.branches ::
      var t := s.proposals[i].target;
      t in s'.repo.branches && Ancestor(s'.repo.commits, s.repo.branches[t], s'.repo.branches[t])
  }

  /** The merge adds a commit to the target branch: it is checked out, and the
      candidate branch has something the base has not. */
  predicate TargetAdvances(r: Repo, p: Proposal)
    requires WellFormed(r.commits)
  {
    && r.head == OnBranch(p.target) && p.candidateBranch in r.branches
    && !Ancestor(r.commits, r.branches[p.candidateBranch], p.base)
  }

  /** The operation is a merge that closes its row as merged. */
  predicate ClosesMerged(s: Store, op: Op)
    requires WellFormed(s.repo.commits)
  {
    op.DoMerge? && op.dies != AfterGit && !Merge(s, op.imp, op.approval, op.auto, op.dies).1.Failed?
  }

  /** Every merge advances its target, and merged-to branches only move forward. */
  ghost predicate Orderly(s: Store, ops: seq<Op>)
    requires WellFormed(s.repo.commits)
    decreases |ops|
  {
    ops == [] ||
    (&& (ClosesMerged(s, ops[0]) && ops[0].imp < |s.proposals| ==> TargetAdvances(s.repo, s.proposals[ops[0].imp]))
     && WellFormed(Apply(s, ops[0]).repo.commits) && Forward(s, Apply(s, ops[0]))
     && Orderly(Apply(s, ops[0]), ops[1..]))
  }

  /** The target branch of a merged proposal is strictly past its base. */
  ghost predicate PastBase(r: Repo, p: Proposal)
    requires WellFormed(r.commits)
  {
    p.target in r.branches && p.base != r.branches[p.target] && Ancestor(r.commits, p.base, r.branches[p.target])
  }

  ghost predicate MergedOnce(s: Store)
    requires WellFormed(s.repo.commits)
  {
    && (forall i | 0 <= i < |s.proposals| && s.proposals[i].status == MergedIn :: PastBase(s.repo, s.proposals[i]))
    && (forall i, j | 0 <= i < j < |s.proposals| && s.proposals[i].status == MergedIn
        && s.proposals[j].status == MergedIn ::
          s.proposals[i].target != s.proposals[j].target || s.proposals[i].base != s.proposals[j].base)
  }

  lemma ForwardKeepsPast(s: Store, s': Store, i: nat)
    requires ValidRepo(s.repo) && ValidRepo(s'.repo) && Grows(s.repo.commits, s'.repo.commits)
    requires i < |s.proposals| && s.proposals[i].status == MergedIn && PastBase(s.repo, s.proposals[i])
        && Forward(s, s')
    ensures PastBase(s'.repo, s.proposals[i])
  {
    var p := s.proposals[i];
    var was, now := s.repo.branches[p.target], s'.repo.branches[p.target];
    AncestorStable(s.repo.commits, s'.repo.commits, p.base, was);
    AncestorTransitive(s'.repo.commits, p.base, was, now);
    AncestorIsOlder(s.repo.commits, p.base, was);
    AncestorIsOlder(s'.repo.commits, was, now);
  }

  /** No operation but a merge makes a proposal merged. */
  ghost predicate NoNewMerged(s: Store, s': Store) {
    forall i | 0 <= i < |s'.proposals| && s'.proposals[i].status == MergedIn ::
      i < |s.proposals| && s'.proposals[i] == s.proposals[i]
  }

  lemma PrepareMergesNothing(s: Store, run: string, mergeBase: Option<CommitId>, dies: bool)
    ensures NoNewMerged(s, Prepare(s, run, mergeBase, dies).0)
  {
  }

  lemma OthersMergeNothing(s: Store, op: Op)
    requires !op.DoMerge?
    ensures NoNewMerged(s, Apply(s, op))
  {
    hide Prepare, CreateWorktree, Evolved, HonestGit;
    match op
    case DoPrepare(run, mergeBase, dies) => PrepareMergesNothing(s, run, mergeBase, dies);
    case _ =>
  }

  lemma NothingNew(s: Store, s': Store)
    requires ValidRepo(s.repo) && ValidRepo(s'.repo) && Grows(s.repo.commits, s'.repo.commits)
    requires MergedOnce(s) && Forward(s, s') && NoNewMerged(s, s')
    ensures MergedOnce(s')
  {
    forall i | 0 <= i < |s'.proposals| && s'.proposals[i].status == MergedIn
      ensures PastBase(s'.repo, s'.proposals[i])
    {
      ForwardKeepsPast(s, s', i);
    }
  }

  lemma NewlyMergedIsAlone(s: Store, imp: ImprovementId, approval: nat, i: nat)
    requires Inv(s) && MergedOnce(s) && MergeError(s, imp, approval).None?
    requires i < |s.proposals| && s.proposals[i].status == MergedIn
    ensures s.proposals[i].target != s.proposals[imp].target || s.proposals[i].base != s.proposals[imp].base
  {
    RecheckedFacts(s, imp, approval);
    assert PastBase(s.repo, s.proposals[i]);
  }

  lemma OnlyItsRowChanges(s: Store, imp: ImprovementId, approval: nat, auto: Option<Tree>, dies: Death)
    requires WellFormed(s.repo.commits) && MergeError(s, imp, approval).None?
    ensures
      var s' := Merge(s, imp, approval, auto, dies).0;
      && imp < |s.proposals|
      && s'.proposals == s.proposals[imp := s'.proposals[imp]]
      && s'.proposals[imp].target == s.proposals[imp].target && s'.proposals[imp].base == s.proposals[imp].base
  {
  }

  lemma AdvancedIsPast(r: Repo, branch: Branch, base: CommitId, theirs: CommitId)
    requires WellFormed(r.commits) && branch in r.branches && r.branches[branch] in r.commits
    requires r.commits[r.branches[branch]].parents == [base, theirs]
    ensures base != r.branches[branch] && Ancestor(r.commits, base, r.branches[branch])
  {
    var landed := r.branches[branch];
    assert r.commits[landed].parents[0] == [base, theirs][0];
    assert Ancestor(r.commits, base, r.commits[landed].parents[0]);
  }

  /** What git does to the target branch, in either case. */
  lemma GitAdvancesExactly(r: Repo, p: Proposal, auto: Option<Tree>)
    requires ValidRepo(r) && p.target in r.branches && r.branches[p.target] == p.base
    requires MergeBranch(r, p.candidateBranch, auto).1 != Conflicted
    ensures
      var r' := MergeBranch(r, p.candidateBranch, auto).0;
      && ValidRepo(r') && p.target in r'.branches && r'.head.OnBranch? == r.head.OnBranch?
      && (r.head.OnBranch? ==> r'.head == r.head)
      && (if TargetAdvances(r, p) then PastBase(r', p) else r'.branches[p.target] == p.base)
  {
    MergeEvolves(r, p.candidateBranch, auto);
    EvolvedIsValid(r, MergeBranch(r, p.candidateBranch, auto).0);
    var (r', result) := MergeBranch(r, p.candidateBranch, auto);
    if TargetAdvances(r, p) {
      assert r'.commits[r'.branches[p.target]].parents == [p.base, r.branches[p.candidateBranch]];
      AdvancedIsPast(r', p.target, p.base, r.branches[p.candidateBranch]);
    }
  }

  lemma CleanUpKeepsPast(r: Repo, p: Proposal)
    requires ValidRepo(r) && p.target in r.branches
    ensures
      var r' := RemoveWorktree(r, p.run);
      && ValidRepo(r') && (p.target in r'.branches ==> r'.branches[p.target] == r.branches[p.target])
      && (r.head == OnBranch(p.target) ==> p.target in r'.branches) && r'.commits == r.commits
  {
  }

  lemma LandedRepo(s: Store, imp: ImprovementId, auto: Option<Tree>, dies: Death)
    requires WellFormed(s.repo.commits) && imp < |s.proposals|
    requires !Land(s, imp, auto, dies).1.Failed?
    ensures
      var (r, result) := MergeBranch(s.repo, s.proposals[imp].candidateBranch, auto);
      && result != Conflicted
      && Land(s, imp, auto, dies).0.repo == if dies == Survives then RemoveWorktree(r, s.proposals[imp].run) else r
  {
  }

  /** Exactly when a merge that gets past git, wherever it dies after it, leaves the
      target branch past the base the proposal was reviewed at. */
  lemma AdvancesExactly(s: Store, imp: ImprovementId, approval: nat, auto: Option<Tree>, dies: Death)
    requires Reachable(s) && WellFormed(s.repo.commits)
    requires !Merge(s, imp, approval, auto, dies).1.Failed?
    ensures
      var s' := Merge(s, imp, approval, auto, dies).0;
      && ValidRepo(s'.repo)
      && (PastBase(s'.repo, s.proposals[imp]) <==> TargetAdvances(s.repo, s.proposals[imp]))
  {
    ReachableKeepsInv(s);
    RecheckedFacts(s, imp, approval);
    var p := s.proposals[imp];
    hide Inv, Reachable, MergeError, MergeBranch, RemoveWorktree, Land, ValidRepo;
    LandedRepo(s, imp, auto, dies);
    GitAdvancesExactly(s.repo, p, auto);
    var r := MergeBranch(s.repo, p.candidateBranch, auto).0;
    CleanUpKeepsPast(r, p);
  }

  lemma MergeStepKeepsOnce(s: Store, op: Op)
    requires Inv(s) && Reachable(s) && ValidRepo(s.repo) && MergedOnce(s) && op.DoMerge?
    requires ClosesMerged(s, op) && op.imp < |s.proposals| ==> TargetAdvances(s.repo, s.proposals[op.imp])
    requires ValidRepo(Apply(s, op).repo) && Grows(s.repo.commits, Apply(s, op).repo.commits)
        && Forward(s, Apply(s, op))
    ensures MergedOnce(Apply(s, op))
  {
    var imp := op.imp;
    var s' := Apply(s, op);
    assert s' == Merge(s, imp, op.approval, op.auto, op.dies).0;
    if ClosesMerged(s, op) {
      OnlyItsRowChanges(s, imp, op.approval, op.auto, op.dies);
      AdvancesExactly(s, imp, op.approval, op.auto, op.dies);
      hide Merge, Land, Inv, Reachable, MergeError, Apply, TargetAdvances;
      PassingClosesMerged(s, op);
      MergedOneMore(s, s', imp, op.approval);
    } else {
      assert s'.proposals == s.proposals;
      hide Merge, Inv, Reachable, MergeError, Apply;
      NothingNew(s, s');
    }
  }

  lemma PassingClosesMerged(s: Store, op: Op)
    requires WellFormed(s.repo.commits) && ClosesMerged(s, op)
    ensures MergeError(s, op.imp, op.approval).None?
  {
  }

  lemma MergedOneMore(s: Store, s': Store, imp: ImprovementId, approval: nat)
    requires Inv(s) && ValidRepo(s.repo) && MergedOnce(s) && MergeError(s, imp, approval).None?
    requires ValidRepo(s'.repo) && Grows(s.repo.commits, s'.repo.commits) && Forward(s, s')
    requires imp < |s.proposals| == |s'.proposals| && s'.proposals == s.proposals[imp := s'.proposals[imp]]
    requires s'.proposals[imp].target == s.proposals[imp].target && s'.proposals[imp].base == s.proposals[imp].base
    requires PastBase(s'.repo, s.proposals[imp])
    ensures MergedOnce(s')
  {
    hide Inv, MergeError;
    forall i | 0 <= i < |s.proposals| && s.proposals[i].status == MergedIn
      ensures PastBase(s'.repo, s.proposals[i])
      ensures s.proposals[i].target != s.proposals[imp].target || s.proposals[i].base != s.proposals[imp].base
    {
      ForwardKeepsPast(s, s', i);
      NewlyMergedIsAlone(s, imp, approval, i);
    }
  }

  lemma StepKeepsOnce(s: Store, op: Op)
    requires Reachable(s) && ValidRepo(s.repo) && MergedOnce(s)
    requires ClosesMerged(s, op) && op.imp < |s.proposals| ==> TargetAdvances(s.repo, s.proposals[op.imp])
    requires WellFormed(Apply(s, op).repo.commits) && Forward(s, Apply(s, op))
    ensures ValidRepo(Apply(s, op).repo) && MergedOnce(Apply(s, op))
  {
    hide Apply, Inv, Reachable, MergedOnce, Forward, ClosesMerged, NoNewMerged, TargetAdvances;
    ReachableKeepsInv(s);
    ApplyKeeps(s, op);
    OnwardGrows(s, Apply(s, op));
    if op.DoMerge? {
      MergeStepKeepsOnce(s, op);
    } else {
      OthersMergeNothing(s, op);
      NothingNew(s, Apply(s, op));
    }
  }

  lemma OnwardGrows(s: Store, s': Store)
    requires Onward(s, s')
    ensures ValidRepo(s'.repo) && Grows(s.repo.commits, s'.repo.commits)
  {
  }

  lemma {:induction false} OrderlyKeepsOnce(s: Store, ops: seq<Op>)
    requires Reachable(s) && ValidRepo(s.repo) && MergedOnce(s) && Orderly(s, ops)
    ensures ValidRepo(Run(s, ops).repo) && MergedOnce(Run(s, ops))
    decreases |ops|
  {
    hide Reachable, Apply, MergedOnce, Forward, ClosesMerged, TargetAdvances;
    if ops != [] {
      StepKeepsOnce(s, ops[0]);
      ReachableStep(s, ops[0]);
      OrderlyKeepsOnce(Apply(s, ops[0]), ops[1..]);
    }
  }

  /** Of all proposals sharing a target branch and a base commit, at most one is
      ever merged, over every orderly history from an empty store. */
  lemma AtMostOneMerged(start: Store, ops: seq<Op>, i: ImprovementId, j: ImprovementId)
    requires Empty(start) && WellFormed(start.repo.commits) && Orderly(start, ops)
    requires i < |Run(start, ops).proposals| && j < |Run(start, ops).proposals|
    requires Run(start, ops).proposals[i].status == MergedIn && Run(start, ops).proposals[j].status == MergedIn
    requires Run(start, ops).proposals[i].target == Run(start, ops).proposals[j].target
    requires Run(start, ops).proposals[i].base == Run(start, ops).proposals[j].base
    ensures i == j
  {
    assert Run(start, []) == start;
    assert Reachable(start);
    OrderlyKeepsOnce(start, ops);
  }
}
