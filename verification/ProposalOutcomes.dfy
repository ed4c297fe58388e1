/** When each operation on a proposal goes through, and what it writes. */
module ProposalOutcomes {
  import opened Base
  import opened ApprovalTable
  import opened Git
  import opened Proposals
  import opened ProposalProofs
  import opened ProposalTheorems
  import opened ProposalLanding

  /** Only this row of the table may have changed. */
  predicate OnlyRowChanged(before: seq<Proposal>, after: seq<Proposal>, imp: ImprovementId) {
    |before| == |after| && forall i | 0 <= i < |before| && i != imp :: after[i] == before[i]
  }

  // ------------------------------------------------------------------ prepare

  predicate IsHead(r: Repo, h: Head, c: CommitId) {
    match h
    case Detached(at) => at == c
    case OnBranch(b) => b in r.branches && r.branches[b] == c
  }

  /** There is something to propose: a finished run with a step and a worktree whose
      commit differs from its merge base with the branch that is checked out. */
  ghost predicate Preparable(s: Store, run: string, mergeBase: Option<CommitId>) {
    && run in s.succeeded && s.succeeded[run] && run in s.repo.worktrees
    && s.repo.head.OnBranch? && s.repo.head.branch in s.repo.branches && mergeBase.Some?
    && (exists c: CommitId :: IsHead(s.repo, s.repo.worktrees[run], c)
          && TreeOf(s.repo, c) != TreeOf(s.repo, mergeBase.value))
    && exists id | id in s.steps :: s.steps[id].run == run
  }

  /** The row is a fresh draft of what git says now. */
  predicate ReadsBack(s: Store, p: Proposal, mergeBase: Option<CommitId>) {
    && s.repo.head == OnBranch(p.target) && mergeBase == Some(p.base)
    && p.run in s.repo.worktrees && IsHead(s.repo, s.repo.worktrees[p.run], p.candidate)
    && s.repo.worktrees[p.run] in {OnBranch(p.candidateBranch), Detached(p.candidate)}
    && (s.repo.worktrees[p.run].Detached? ==> p.candidateBranch == RunBranch(p.run))
    && p.diffDigest == Sha256(Diff(TreeOf(s.repo, p.base), TreeOf(s.repo, p.candidate)))
    && p.patch == |s.artifacts| && p.status == Draft && p.verdict.None? && p.validations == []
  }

  /** The run's row is as git says, new or written over; no other row changed. */
  ghost predicate PreparedAt(
    s: Store, after: seq<Proposal>, run: string, mergeBase: Option<CommitId>, imp: ImprovementId)
  {
    && imp < |after| && after[imp].run == run && ReadsBack(s, after[imp], mergeBase)
    && if imp < |s.proposals|
        then s.proposals[imp].run == run && after[imp].mergeCommit == s.proposals[imp].mergeCommit
             && OnlyRowChanged(s.proposals, after, imp)
        else after == s.proposals + [after[imp]] && after[imp].mergeCommit.None?
             && forall i | 0 <= i < |s.proposals| :: s.proposals[i].run != run
  }

  ghost predicate Prepared(s: Store, after: seq<Proposal>, run: string, mergeBase: Option<CommitId>) {
    exists imp :: PreparedAt(s, after, run, mergeBase, imp)
  }

  lemma HeadIs(r: Repo, h: Head, c: CommitId)
    ensures HeadCommit(r, h) == Some(c) <==> IsHead(r, h, c)
  {
  }

  lemma ReadExactly(s: Store, run: string, mergeBase: Option<CommitId>)
    ensures ReadIdentities(s, run, mergeBase).1.None? <==> Preparable(s, run, mergeBase)
    ensures ReadIdentities(s, run, mergeBase).1.None? ==>
              var p := ReadIdentities(s, run, mergeBase).0;
              p.run == run && ReadsBack(s, p, mergeBase) && p.mergeCommit.None?
  {
    if run in s.repo.worktrees && mergeBase.Some? {
      forall c: CommitId ensures HeadCommit(s.repo, s.repo.worktrees[run]) == Some(c)
                                 <==> IsHead(s.repo, s.repo.worktrees[run], c) {
        HeadIs(s.repo, s.repo.worktrees[run], c);
      }
      var c := HeadCommit(s.repo, s.repo.worktrees[run]);
      if c.Some? { DiffRoundTrip(TreeOf(s.repo, mergeBase.value), TreeOf(s.repo, c.value)); }
    }
    hide TreeOf, Diff;
  }

  /** Exactly when `prepare` goes through, for a run with a row and for one without,
      and what it writes: the identities git gives now, nothing of the old row but the
      merge commit. A failure changes nothing. */
  lemma PrepareExactly(s: Store, run: string, mergeBase: Option<CommitId>, dies: bool)
    ensures
      var (s', outcome) := Prepare(s, run, mergeBase, dies);
      && (outcome == Ok <==> Preparable(s, run, mergeBase) && !dies)
      && (outcome == Ok ==> Prepared(s, s'.proposals, run, mergeBase))
      && (outcome.Failed? ==> s' == s)
      && (!outcome.Failed? ==> s'.artifacts == s.artifacts + [Artifact(run, PatchKind, Missing)])
      && s' == s.(artifacts := s'.artifacts, proposals := s'.proposals)
      && (outcome == Died ==> s'.proposals == s.proposals)
  {
    hide ReadIdentities, Preparable, ReadsBack;
    ReadExactly(s, run, mergeBase);
    var (s', outcome) := Prepare(s, run, mergeBase, dies);
    if outcome == Ok {
      var p := ReadIdentities(s, run, mergeBase).0;
      match FindProposal(s.proposals, run)
      case None => assert PreparedAt(s, s'.proposals, run, mergeBase, |s.proposals|);
      case Some(imp) =>
        var q := p.(mergeCommit := s.proposals[imp].mergeCommit);
        SameReading(s, p, q, mergeBase);
        assert s'.proposals[imp] == q;
        assert PreparedAt(s, s'.proposals, run, mergeBase, imp);
    }
  }

  lemma SameReading(s: Store, p: Proposal, q: Proposal, mergeBase: Option<CommitId>)
    requires ReadsBack(s, p, mergeBase) && q == p.(mergeCommit := q.mergeCommit)
    ensures ReadsBack(s, q, mergeBase)
  {
  }

  // --------------------------------------------------------------- mark_ready

  predicate PassedVerdict(artifacts: seq<Artifact>, run: string, id: ArtifactId) {
    && id < |artifacts| && artifacts[id].run == run && artifacts[id].kind == VerdictKind
    && artifacts[id].content.Doc? && artifacts[id].content.passed in {IsTrue, OtherTruthy}
  }

  /** Exactly when a proposal is marked ready, and what that writes. */
  lemma MarkReadyExactly(s: Store, imp: ImprovementId, verdict: ArtifactId, validations: seq<ArtifactId>)
    ensures
      var (s', outcome) := MarkReady(s, imp, verdict, validations);
      && (outcome == Ok <==> && imp < |s.proposals| && !Closed(s.proposals[imp])
                             && PassedVerdict(s.artifacts, s.proposals[imp].run, verdict))
      && (if outcome == Ok
          then && s' == s.(proposals := s'.proposals) && OnlyRowChanged(s.proposals, s'.proposals, imp)
               && s'.proposals[imp] == s.proposals[imp].(status := ReadyForReview, verdict := Some(verdict),
                                                         validations := validations)
          else s' == s)
  {
  }

  // ------------------------------------------------------------ request_merge

  /** The identities a proposal was reviewed with are still the repository's. */
  predicate Stands(r: Repo, p: Proposal) {
    && p.run in r.worktrees && HeadCommit(r, r.worktrees[p.run]) == Some(p.candidate)
    && p.target in r.branches && r.branches[p.target] == p.base
    && p.diffDigest == Sha256(Diff(TreeOf(r, p.base), TreeOf(r, p.candidate))) && !r.dirty
  }

  predicate IsGarbled(a: Artifact, run: string) {
    a.run == run && a.kind == TestResultKind && a.content == NotObject
  }

  /** A passing test result for exactly this commit, with nothing newer of the run's
      test results on which reading stops. */
  ghost predicate Tested(artifacts: seq<Artifact>, run: string, candidate: CommitId) {
    exists k | 0 <= k < |artifacts| ::
      && artifacts[k] == Artifact(run, TestResultKind, Doc(IsTrue, Some(candidate)))
      && forall j | k < j < |artifacts| :: !IsGarbled(artifacts[j], run)
  }

  lemma TestedByNewest(artifacts: seq<Artifact>, run: string, candidate: CommitId)
    requires artifacts != []
    ensures
      var n := |artifacts| - 1;
      Tested(artifacts, run, candidate)
      <==> artifacts[n] == Artifact(run, TestResultKind, Doc(IsTrue, Some(candidate)))
           || (!IsGarbled(artifacts[n], run) && Tested(artifacts[..n], run, candidate))
  {
    hide IsGarbled;
    var n := |artifacts| - 1;
    var older := artifacts[..n];
    if Tested(older, run, candidate) {
      var k :| 0 <= k < n && older[k] == Artifact(run, TestResultKind, Doc(IsTrue, Some(candidate)))
          && forall j | k < j < n :: !IsGarbled(older[j], run);
      assert artifacts[k] == older[k] && forall j | k < j < n :: artifacts[j] == older[j];
    }
    if Tested(artifacts, run, candidate) {
      var k :| 0 <= k < |artifacts| && artifacts[k] == Artifact(run, TestResultKind, Doc(IsTrue, Some(candidate)))
          && forall j | k < j < |artifacts| :: !IsGarbled(artifacts[j], run);
      assert k < n ==> older[k] == artifacts[k] && forall j | k < j < n :: older[j] == artifacts[j];
    }
  }

  lemma {:induction false} TestedExactly(artifacts: seq<Artifact>, run: string, candidate: CommitId)
    ensures TestResultPassed(artifacts, run, candidate) == Found <==> Tested(artifacts, run, candidate)
    ensures TestResultPassed(artifacts, run, candidate) == Raises
            <==> !Tested(artifacts, run, candidate) && exists k | 0 <= k < |artifacts| :: IsGarbled(artifacts[k], run)
    decreases |artifacts|
  {
    if artifacts != [] {
      var n := |artifacts| - 1;
      TestedByNewest(artifacts, run, candidate);
      TestedExactly(artifacts[..n], run, candidate);
      hide Tested;
      assert forall k | 0 <= k < n :: artifacts[..n][k] == artifacts[k];
    }
  }

  ghost predicate Requestable(s: Store, imp: ImprovementId) {
    && imp < |s.proposals| && s.proposals[imp].status == ReadyForReview && Stands(s.repo, s.proposals[imp])
    && Tested(s.artifacts, s.proposals[imp].run, s.proposals[imp].candidate)
  }

  /** The proposal's row, if there is one, is over the tuple it has now. */
  ghost predicate RowMatches(s: Store, imp: ImprovementId)
    requires imp < |s.proposals|
  {
    forall i | 0 <= i < |s.approvals| && s.approvals[i].step == MergeStep(s.proposals[imp].run, imp) ::
      s.approvals[i].digest == Sha256(Tuple(imp, s.proposals[imp]))
  }

  /** A request that was answered: with the row that is there, or with a new pending
      one of class R2, whose step then waits. */
  ghost predicate Asked(s: Store, s': Store, imp: ImprovementId, approval: nat)
    requires imp < |s.proposals|
  {
    var p := s.proposals[imp];
    var step := MergeStep(p.run, imp);
    && approval < |s'.approvals| && s'.approvals[approval].step == step && step in s'.steps
    && s'.approvals[approval].digest == Sha256(Tuple(imp, p))
    && if approval < |s.approvals| then s'.approvals == s.approvals
       else && s'.approvals == s.approvals + [Approval(step, Sha256(Tuple(imp, p)), Pending, Some(R2))]
            && s'.steps[step].status == StepWaiting
  }

  ghost predicate OnlyStepChanged(s: Store, s': Store, step: StepId) {
    && s'.steps.Keys <= s.steps.Keys + {step}
    && forall id | id in s.steps && id != step :: id in s'.steps && s'.steps[id] == s.steps[id]
  }

  lemma RecheckExactly(r: Repo, p: Proposal)
    ensures Recheck(r, p).None? <==> Stands(r, p)
  {
    hide Diff, TreeOf;
  }

  /** Exactly when a merge is asked for, in every reachable store, and what that
      writes; asking again gives the same row and adds none. */
  lemma RequestExactly(s: Store, imp: ImprovementId, dies: bool)
    requires Reachable(s)
    ensures
      var (s', outcome) := RequestMerge(s, imp, dies);
      && (outcome.Requested? <==> Requestable(s, imp) && !dies && RowMatches(s, imp))
      && (outcome == Died <==> Requestable(s, imp) && dies)
      && (outcome.Requested? ==> Asked(s, s', imp, outcome.approval))
      && s' == s.(steps := s'.steps, approvals := s'.approvals)
      && (!outcome.Requested? ==> s'.approvals == s.approvals)
      && (imp < |s.proposals| ==> OnlyStepChanged(s, s', MergeStep(s.proposals[imp].run, imp)))
  {
    hide Inv, Reachable, Recheck, Stands, TestResultPassed, Tested, RowMatches;
    ReachableKeepsInv(s);
    if imp < |s.proposals| {
      var p := s.proposals[imp];
      RecheckExactly(s.repo, p);
      TestedExactly(s.artifacts, p.run, p.candidate);
      RowMatchesFirst(s, imp);
    }
  }

  lemma RowMatchesFirst(s: Store, imp: ImprovementId)
    requires Inv(s) && imp < |s.proposals|
    ensures
      var found := FindByStep(s.approvals, MergeStepOf(imp, s.proposals[imp]));
      RowMatches(s, imp) <==> found.Some? ==> s.approvals[found.value].digest == MergeDigest(imp, s.proposals[imp])
  {
  }

  // -------------------------------------------------------------------- merge

  ghost predicate Mergeable(s: Store, imp: ImprovementId, approval: nat) {
    && imp < |s.proposals| && approval < |s.approvals|
    && s.approvals[approval].step == MergeStep(s.proposals[imp].run, imp)
    && s.approvals[approval].status == Approved
    && s.approvals[approval].digest == Sha256(Tuple(imp, s.proposals[imp]))
    && Stands(s.repo, s.proposals[imp])
    && Tested(s.artifacts, s.proposals[imp].run, s.proposals[imp].candidate)
  }

  lemma PassesExactly(s: Store, imp: ImprovementId, approval: nat)
    ensures MergeError(s, imp, approval).None? <==> Mergeable(s, imp, approval)
  {
    hide Recheck, Stands, TestResultPassed, Tested;
    if imp < |s.proposals| {
      RecheckExactly(s.repo, s.proposals[imp]);
      TestedExactly(s.artifacts, s.proposals[imp].run, s.proposals[imp].candidate);
    }
  }

  /** Git cannot merge: nothing to merge into or from, or both sides have moved and
      the three-way merge has no answer. */
  predicate GitStops(r: Repo, branch: Branch, auto: Option<Tree>)
    requires WellFormed(r.commits)
  {
    var ours := HeadCommit(r, r.head);
    || ours.None? || branch !in r.branches
    || (auto.None? && !Ancestor(r.commits, ours.value, r.branches[branch])
        && !Ancestor(r.commits, r.branches[branch], ours.value))
  }

  lemma StopsExactly(r: Repo, branch: Branch, auto: Option<Tree>)
    requires ValidRepo(r)
    ensures MergeBranch(r, branch, auto).1 == Conflicted <==> GitStops(r, branch, auto)
    ensures MergeBranch(r, branch, auto).1 == Conflicted ==> MergeBranch(r, branch, auto).0 == r
  {
  }

  /** What git leaves when it does not stop, on a branch or on a detached HEAD: as it
      was, if what is checked out has the other side already, and otherwise one new
      commit there, of both sides in this order, with every other branch, commit and
      worktree as before. */
  lemma GitMergesExactly(r: Repo, branch: Branch, auto: Option<Tree>)
    requires ValidRepo(r) && !GitStops(r, branch, auto)
    ensures
      var ours, theirs := HeadCommit(r, r.head).value, r.branches[branch];
      var r' := MergeBranch(r, branch, auto).0;
      if Ancestor(r.commits, theirs, ours) then r' == r
      else
        && HeadCommit(r', r'.head) == Some(r.next) && r.next !in r.commits && r.next in r'.commits
        && r'.commits == r.commits[r.next := r'.commits[r.next]] && r'.commits[r.next].parents == [ours, theirs]
        && (Ancestor(r.commits, ours, theirs) ==> r'.commits[r.next].tree == r.commits[theirs].tree)
        && (!Ancestor(r.commits, ours, theirs) ==> auto == Some(r'.commits[r.next].tree))
        && (r.head.OnBranch? ==> r'.head == r.head) && r'.head.OnBranch? == r.head.OnBranch?
        && (forall b | b in r.branches && r.head != OnBranch(b) :: b in r'.branches && r'.branches[b] == r.branches[b])
        && r'.worktrees == r.worktrees && r'.dirty == r.dirty
  {
    hide Ancestor;
  }

  /** The row is closed as merged, with what is checked out now as its merge commit,
      its approval step is done, and nothing else in the tables moved. */
  ghost predicate ClosedAsMerged(s: Store, s': Store, imp: ImprovementId)
    requires imp < |s.proposals|
  {
    var step := MergeStep(s.proposals[imp].run, imp);
    && s' == s.(proposals := s'.proposals, steps := s'.steps, repo := s'.repo)
    && OnlyRowChanged(s.proposals, s'.proposals, imp)
    && s'.proposals[imp] == s.proposals[imp].(status := MergedIn, mergeCommit := s'.proposals[imp].mergeCommit)
    && s'.proposals[imp].mergeCommit == HeadCommit(s'.repo, s'.repo.head)
    && OnlyStepChanged(s, s', step) && s'.steps.Keys == s.steps.Keys
    && (step in s.steps ==> s'.steps[step].status == StepSucceeded)
  }

  /** What is left once git has had its turn. */
  ghost predicate LandedAs(s: Store, s': Store, imp: ImprovementId, dies: Death)
    requires imp < |s.proposals|
  {
    && (if dies == AfterGit then s' == s.(repo := s'.repo) else ClosedAsMerged(s, s', imp))
    && s'.repo.worktrees == if dies == Survives then s.repo.worktrees - {s.proposals[imp].run} else s.repo.worktrees
  }

  lemma RemoveExactly(r: Repo, run: string)
    ensures
      var r' := RemoveWorktree(r, run);
      && r'.worktrees == r.worktrees - {run} && r'.head == r.head && r'.commits == r.commits
      && (forall b | b in r.branches && b != RunBranch(run) :: b in r'.branches && r'.branches[b] == r.branches[b])
      && (RunBranch(run) in r'.branches
          <==> RunBranch(run) in r.branches && CheckedOut(r', r'.worktrees, RunBranch(run)))
      && HeadCommit(r', r'.head) == HeadCommit(r, r.head)
  {
  }

  lemma LandsAs(s: Store, imp: ImprovementId, auto: Option<Tree>, dies: Death)
    requires ValidRepo(s.repo) && WellFormed(s.repo.commits) && imp < |s.proposals|
    ensures
      var (s', outcome) := Land(s, imp, auto, dies);
      && (outcome.Failed? <==> GitStops(s.repo, s.proposals[imp].candidateBranch, auto))
      && (outcome.Failed? ==> s' == s)
      && (!outcome.Failed? ==> outcome == (if dies == Survives then Ok else Died) && LandedAs(s, s', imp, dies))
  {
    hide MergeBranch, RemoveWorktree, GitStops, ValidRepo, RunBranch, CheckedOut, Evolved;
    var p := s.proposals[imp];
    var r := MergeBranch(s.repo, p.candidateBranch, auto).0;
    StopsExactly(s.repo, p.candidateBranch, auto);
    MergeEvolves(s.repo, p.candidateBranch, auto);
    RemoveExactly(r, p.run);
  }

  /** Exactly when a merge fails, and then it changes nothing; otherwise git goes
      first, then row and step, then the worktree, up to where the process dies. */
  lemma MergeExactly(s: Store, imp: ImprovementId, approval: nat, auto: Option<Tree>, dies: Death)
    requires Reachable(s) && WellFormed(s.repo.commits)
    ensures
      var (s', outcome) := Merge(s, imp, approval, auto, dies);
      && (outcome.Failed? <==>
            !Mergeable(s, imp, approval) || GitStops(s.repo, s.proposals[imp].candidateBranch, auto))
      && (outcome.Failed? ==> s' == s)
      && (!outcome.Failed? ==> outcome == (if dies == Survives then Ok else Died) && LandedAs(s, s', imp, dies))
  {
    ReachableKeepsInv(s);
    InvIsValid(s);
    PassesExactly(s, imp, approval);
    hide Inv, Reachable, Recheck, TestError, Stands, Tested, Land, LandedAs, GitStops;
    if MergeError(s, imp, approval).None? {
      LandsAs(s, imp, auto, dies);
    }
  }

  // ------------------------------------------------------ reject and worktrees

  /** A proposal is rejected exactly if it is open; its row is closed first and its
      worktree removed after that, and nothing else changes. */
  lemma RejectExactly(s: Store, imp: ImprovementId, dies: Death)
    ensures
      var (s', outcome) := RejectProposal(s, imp, dies);
      && (outcome.Failed? <==> imp >= |s.proposals| || Closed(s.proposals[imp]))
      && (outcome.Failed? ==> s' == s)
      && (!outcome.Failed? ==>
            && outcome == (if dies == Survives then Ok else Died)
            && s' == s.(proposals := s'.proposals, repo := s'.repo)
            && OnlyRowChanged(s.proposals, s'.proposals, imp)
            && s'.proposals[imp] == s.proposals[imp].(status := RejectedOut)
            && (dies != Survives ==> s'.repo == s.repo)
            && (dies == Survives ==> s'.repo.worktrees == s.repo.worktrees - {s.proposals[imp].run}))
  {
  }

  /** A worktree is made, on its own branch at what is checked out, exactly if the
      run has neither yet; removing it again leaves the repository as it was. */
  lemma WorktreeRoundTrip(r: Repo, run: string)
    requires !CheckedOut(r, r.worktrees, RunBranch(run))
    ensures
      var r' := CreateWorktree(r, run);
      if RunBranch(run) in r.branches || run in r.worktrees || HeadCommit(r, r.head).None? then r' == r
      else
        && run in r'.worktrees && r'.worktrees[run] == OnBranch(RunBranch(run))
        && HeadCommit(r', r'.worktrees[run]) == HeadCommit(r, r.head)
        && RemoveWorktree(r', run) == r
  {
    var r' := CreateWorktree(r, run);
    if r' != r {
      assert r'.worktrees - {run} == r.worktrees;
      assert r'.branches - {RunBranch(run)} == r.branches;
    }
  }
}
