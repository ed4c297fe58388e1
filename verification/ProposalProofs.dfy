/** What every history of the merge protocol keeps. */
module ProposalProofs {
  import opened Base
  import opened ApprovalTable
  import opened Git
  import opened Proposals

  /** Identities, digest and verdict of a row agree with git and the artifacts. */
  ghost predicate GoodProposal(s: Store, p: Proposal)
    requires WellFormed(s.repo.commits)
  {
    && p.run in s.succeeded
    && p.candidate in s.repo.commits && Ancestor(s.repo.commits, p.base, p.candidate)
    && p.diffDigest == Sha256(Diff(TreeOf(s.repo, p.base), TreeOf(s.repo, p.candidate)))
    && TreeOf(s.repo, p.base) != TreeOf(s.repo, p.candidate)
    && (p.status == Draft ==> p.verdict.None?)
    && (p.status == ReadyForReview ==> p.verdict.Some?)
    && (p.verdict.Some? ==> VerdictPassed(s.artifacts, p.run, p.verdict.value) == Some(true))
  }

  /** A merge approval names one proposal and a tuple with a passed verdict. */
  ghost predicate GoodRow(s: Store, row: Row) {
    row.step.MergeStep? ==>
      && row.step.improvement < |s.proposals| && s.proposals[row.step.improvement].run == row.step.run
      && row.digest.preimage.MergeAction?
      && row.digest.preimage.improvement == row.step.improvement && row.digest.preimage.run == row.step.run
      && row.digest.preimage.verdict.Some?
      && VerdictPassed(s.artifacts, row.step.run, row.digest.preimage.verdict.value) == Some(true)
  }

  ghost predicate OneRowPerMerge(rows: seq<Row>) {
    forall i, j | 0 <= i < j < |rows| && rows[i].step.MergeStep? :: rows[i].step != rows[j].step
  }

  ghost predicate OneProposalPerRun(proposals: seq<Proposal>) {
    forall i, j | 0 <= i < j < |proposals| :: proposals[i].run != proposals[j].run
  }

  ghost predicate Inv(s: Store) {
    && ValidRepo(s.repo)
    && (forall w | w in s.repo.worktrees :: w in s.succeeded)
    && (forall i | 0 <= i < |s.proposals| :: GoodProposal(s, s.proposals[i]))
    && (forall i | 0 <= i < |s.approvals| :: GoodRow(s, s.approvals[i]))
    && OneRowPerMerge(s.approvals) && OneProposalPerRun(s.proposals)
  }

  /** What one transition may change, transitively closed. */
  ghost predicate Onward(s: Store, s': Store) {
    && ValidRepo(s'.repo) && Grows(s.repo.commits, s'.repo.commits)
    && s.artifacts <= s'.artifacts && s.succeeded.Keys <= s'.succeeded.Keys
    && |s.proposals| <= |s'.proposals|
    && (forall i | 0 <= i < |s.proposals| :: s'.proposals[i].run == s.proposals[i].run)
    && Evolves(s.approvals, s'.approvals)
  }

  lemma GoodProposalStays(s: Store, s': Store, p: Proposal)
    requires ValidRepo(s.repo) && Onward(s, s') && GoodProposal(s, p)
    ensures GoodProposal(s', p)
  {
    AncestorStable(s.repo.commits, s'.repo.commits, p.base, p.candidate);
  }

  lemma GoodRowStays(s: Store, s': Store, row: Row, row': Row)
    requires Onward(s, s') && GoodRow(s, row) && row'.step == row.step && row'.digest == row.digest
    ensures GoodRow(s', row')
  {
  }

  /** Enough for the invariant to carry over a transition. */
  lemma InvFrom(s: Store, s': Store)
    requires Inv(s) && Onward(s, s')
    requires forall w | w in s'.repo.worktrees :: w in s'.succeeded
    requires forall i | 0 <= i < |s'.proposals| ::
               GoodProposal(s', s'.proposals[i]) || (i < |s.proposals| && s'.proposals[i] == s.proposals[i])
    requires forall i | |s.approvals| <= i < |s'.approvals| :: GoodRow(s', s'.approvals[i])
    requires OneRowPerMerge(s'.approvals) && OneProposalPerRun(s'.proposals)
    ensures Inv(s')
  {
    forall i | 0 <= i < |s'.proposals| ensures GoodProposal(s', s'.proposals[i]) {
      if i < |s.proposals| && s'.proposals[i] == s.proposals[i] { GoodProposalStays(s, s', s.proposals[i]); }
    }
    forall i | 0 <= i < |s'.approvals| ensures GoodRow(s', s'.approvals[i]) {
      if i < |s.approvals| {
        assert RowEvolves(s.approvals[i], s'.approvals[i]);
        GoodRowStays(s, s', s.approvals[i], s'.approvals[i]);
      }
    }
  }

  lemma OnwardTransitive(a: Store, b: Store, c: Store)
    requires Onward(a, b) && Onward(b, c)
    ensures Onward(a, c)
  {
  }

  // --------------------------------------------------------------- small moves

  lemma UnmovedIsOnward(s: Store)
    requires Inv(s)
    ensures Onward(s, s) && WellFormed(s.repo.commits)
  {
  }

  lemma NoteArtifact(s: Store, a: Artifact)
    requires Inv(s)
    ensures Inv(s.(artifacts := s.artifacts + [a])) && Onward(s, s.(artifacts := s.artifacts + [a]))
  {
  }

  lemma PutProposal(s: Store, imp: ImprovementId, p: Proposal)
    requires Inv(s) && imp < |s.proposals| && GoodProposal(s, p) && p.run == s.proposals[imp].run
    ensures Inv(s.(proposals := s.proposals[imp := p])) && Onward(s, s.(proposals := s.proposals[imp := p]))
  {
    var s' := s.(proposals := s.proposals[imp := p]);
    GoodProposalStays(s, s', p);
    InvFrom(s, s');
  }

  lemma AddProposal(s: Store, p: Proposal)
    requires Inv(s) && GoodProposal(s, p) && FindProposal(s.proposals, p.run).None?
    ensures Inv(s.(proposals := s.proposals + [p])) && Onward(s, s.(proposals := s.proposals + [p]))
  {
    var s' := s.(proposals := s.proposals + [p]);
    GoodProposalStays(s, s', p);
    InvFrom(s, s');
  }

  lemma AddRow(s: Store, row: Row)
    requires Inv(s) && GoodRow(s, row)
    requires row.step.MergeStep? ==> FindByStep(s.approvals, row.step).None?
    ensures Inv(s.(approvals := s.approvals + [row])) && Onward(s, s.(approvals := s.approvals + [row]))
  {
  }

  lemma MoveSteps(s: Store, steps: map<StepId, Step>)
    requires Inv(s)
    ensures Inv(s.(steps := steps)) && Onward(s, s.(steps := steps))
  {
  }

  lemma MoveRepo(s: Store, repo: Repo)
    requires Inv(s) && Evolved(s.repo, repo)
    ensures Inv(s.(repo := repo)) && Onward(s, s.(repo := repo))
  {
    InvFrom(s, s.(repo := repo));
  }

  // ------------------------------------------------------------- each operation

  lemma IdentitiesAreGood(s: Store, run: string, mergeBase: Option<CommitId>, dies: bool)
    requires Inv(s) && HonestGit(s, DoPrepare(run, mergeBase, dies)) && ReadIdentities(s, run, mergeBase).1.None?
    ensures var p := ReadIdentities(s, run, mergeBase).0;
            GoodProposal(s, p) && p.run == run && p.status == Draft
            && forall m :: GoodProposal(s, p.(mergeCommit := m))
  {
  }

  lemma PrepareKeeps(s: Store, run: string, mergeBase: Option<CommitId>, dies: bool)
    requires Inv(s) && HonestGit(s, DoPrepare(run, mergeBase, dies))
    ensures Inv(Prepare(s, run, mergeBase, dies).0) && Onward(s, Prepare(s, run, mergeBase, dies).0)
  {
    hide Inv, HonestGit, GoodProposal, Onward;
    UnmovedIsOnward(s);
    if ReadIdentities(s, run, mergeBase).1.None? {
      var p := ReadIdentities(s, run, mergeBase).0;
      IdentitiesAreGood(s, run, mergeBase, dies);
      hide ReadIdentities;
      var a := Artifact(run, PatchKind, Missing);
      var noted := s.(artifacts := s.artifacts + [a]);
      NoteArtifact(s, a);
      UnmovedIsOnward(noted);
      if !dies {
        match FindProposal(s.proposals, run) {
          case None =>
            GoodProposalStays(s, noted, p);
            AddProposal(noted, p);
            OnwardTransitive(s, noted, noted.(proposals := noted.proposals + [p]));
          case Some(imp) =>
            var q := p.(mergeCommit := s.proposals[imp].mergeCommit);
            GoodProposalStays(s, noted, q);
            PutProposal(noted, imp, q);
            OnwardTransitive(s, noted, noted.(proposals := noted.proposals[imp := q]));
        }
      }
    }
  }

  lemma MarkReadyKeeps(s: Store, imp: ImprovementId, verdict: ArtifactId, validations: seq<ArtifactId>)
    requires Inv(s)
    ensures Inv(MarkReady(s, imp, verdict, validations).0) && Onward(s, MarkReady(s, imp, verdict, validations).0)
  {
    UnmovedIsOnward(s);
    var s' := MarkReady(s, imp, verdict, validations).0;
    if s' != s {
      assert GoodProposal(s, s.proposals[imp]);
      assert GoodProposal(s, s'.proposals[imp]);
      PutProposal(s, imp, s'.proposals[imp]);
    }
  }

  lemma ReadyHasVerdict(s: Store, imp: ImprovementId)
    requires Inv(s) && imp < |s.proposals| && s.proposals[imp].status == ReadyForReview
    ensures
      var p := s.proposals[imp];
      GoodRow(s, Approval(MergeStepOf(imp, p), MergeDigest(imp, p), Pending, Some(R2)))
  {
  }

  lemma RequestKeeps(s: Store, imp: ImprovementId, dies: bool)
    requires Inv(s)
    ensures Inv(RequestMerge(s, imp, dies).0) && Onward(s, RequestMerge(s, imp, dies).0)
  {
    hide Inv, GoodRow, Recheck, TestError, Onward;
    UnmovedIsOnward(s);
    if imp < |s.proposals| && s.proposals[imp].status == ReadyForReview {
      var p := s.proposals[imp];
      var step := MergeStepOf(imp, p);
      var stepped := s.(steps := AddStep(s.steps, step, p.run));
      MoveSteps(s, stepped.steps);
      if FindByStep(s.approvals, step).None? {
        ReadyHasVerdict(stepped, imp);
        var row := Approval(step, MergeDigest(imp, p), Pending, Some(R2));
        AddRow(stepped, row);
        var requested := stepped.(approvals := stepped.approvals + [row]);
        OnwardTransitive(s, stepped, requested);
        var waiting := SetStep(stepped.steps, step, StepWaiting);
        MoveSteps(requested, waiting);
        OnwardTransitive(s, requested, requested.(steps := waiting));
      }
    }
  }

  lemma CloseRow(s: Store, imp: ImprovementId, status: ProposalStatus, mergeCommit: Option<CommitId>)
    requires Inv(s) && imp < |s.proposals| && (status == MergedIn || status == RejectedOut)
    ensures
      var s' := s.(proposals := s.proposals[imp := s.proposals[imp].(status := status, mergeCommit := mergeCommit)]);
      Inv(s') && Onward(s, s')
  {
    assert GoodProposal(s, s.proposals[imp]);
    var p := s.proposals[imp].(status := status, mergeCommit := mergeCommit);
    assert GoodProposal(s, p);
    PutProposal(s, imp, p);
  }

  lemma CloseMergedKeeps(s: Store, imp: ImprovementId, r: Repo)
    requires Inv(s) && imp < |s.proposals| && Evolved(s.repo, r)
    ensures Inv(CloseMerged(s, imp, r)) && Onward(s, CloseMerged(s, imp, r))
  {
    hide Inv, Onward;
    var s' := CloseMerged(s, imp, r);
    var moved := s.(repo := r);
    MoveRepo(s, r);
    var closed := moved.(proposals := s'.proposals);
    CloseRow(moved, imp, MergedIn, HeadCommit(r, r.head));
    OnwardTransitive(s, moved, closed);
    MoveSteps(closed, s'.steps);
    OnwardTransitive(s, closed, s');
  }

  lemma CleanUpKeeps(s: Store, imp: ImprovementId, r: Repo)
    requires Inv(s) && imp < |s.proposals| && Evolved(s.repo, r)
    ensures
      var s' := CloseMerged(s, imp, r).(repo := RemoveWorktree(r, s.proposals[imp].run));
      Inv(s') && Onward(s, s')
  {
    EvolvedIsValid(s.repo, r);
    RemoveWorktreeEvolves(r, s.proposals[imp].run);
    ClosedRepo(s, imp, r);
    hide Inv, Onward, CloseMerged, RemoveWorktree, Evolved;
    CloseMergedKeeps(s, imp, r);
    var closed := CloseMerged(s, imp, r);
    var cleaned := RemoveWorktree(r, s.proposals[imp].run);
    MoveRepo(closed, cleaned);
    OnwardTransitive(s, closed, closed.(repo := cleaned));
  }

  lemma LandKeeps(s: Store, imp: ImprovementId, auto: Option<Tree>, dies: Death)
    requires Inv(s) && WellFormed(s.repo.commits) && imp < |s.proposals|
    ensures Inv(Land(s, imp, auto, dies).0) && Onward(s, Land(s, imp, auto, dies).0)
  {
    UnmovedIsOnward(s);
    InvIsValid(s);
    hide Inv, Onward, MergeBranch, CloseMerged, RemoveWorktree, Evolved, ValidRepo;
    var r := MergeBranch(s.repo, s.proposals[imp].candidateBranch, auto).0;
    MergeEvolves(s.repo, s.proposals[imp].candidateBranch, auto);
    MoveRepo(s, r);
    CloseMergedKeeps(s, imp, r);
    CleanUpKeeps(s, imp, r);
    ClosedRepo(s, imp, r);
  }

  lemma EvolvedIsValid(r: Repo, r': Repo)
    requires Evolved(r, r')
    ensures ValidRepo(r')
  {
  }

  lemma MergeKeeps(s: Store, imp: ImprovementId, approval: nat, auto: Option<Tree>, dies: Death)
    requires Inv(s)
    ensures Inv(Merge(s, imp, approval, auto, dies).0) && Onward(s, Merge(s, imp, approval, auto, dies).0)
  {
    UnmovedIsOnward(s);
    hide Inv, Onward, Land;
    if MergeError(s, imp, approval).None? { LandKeeps(s, imp, auto, dies); }
  }

  lemma ClosedRepo(s: Store, imp: ImprovementId, r: Repo)
    requires imp < |s.proposals|
    ensures CloseMerged(s, imp, r).repo == r
  {
  }

  lemma InvIsValid(s: Store)
    requires Inv(s)
    ensures ValidRepo(s.repo)
  {
  }

  lemma RejectKeeps(s: Store, imp: ImprovementId, dies: Death)
    requires Inv(s)
    ensures Inv(RejectProposal(s, imp, dies).0) && Onward(s, RejectProposal(s, imp, dies).0)
  {
    UnmovedIsOnward(s);
    InvIsValid(s);
    hide Inv, Onward, RemoveWorktree;
    if imp < |s.proposals| {
      var p := s.proposals[imp];
      CloseRow(s, imp, RejectedOut, p.mergeCommit);
      var closed := s.(proposals := s.proposals[imp := p.(status := RejectedOut, mergeCommit := p.mergeCommit)]);
      RemoveWorktreeEvolves(s.repo, p.run);
      MoveRepo(closed, RemoveWorktree(s.repo, p.run));
      OnwardTransitive(s, closed, closed.(repo := RemoveWorktree(s.repo, p.run)));
    }
  }

  lemma DecisionKeeps(s: Store, id: nat, status: Status)
    requires Inv(s) && (status == Approved || status == Rejected)
    ensures var s' := s.(approvals := Decide(s.approvals, id, status).0); Inv(s') && Onward(s, s')
  {
  }

  lemma StartRunKeeps(s: Store, run: string)
    requires Inv(s) && run !in s.succeeded
    ensures
      var s' := s.(succeeded := s.succeeded[run := false], repo := CreateWorktree(s.repo, run));
      Inv(s') && Onward(s, s')
  {
    InvFrom(s, s.(succeeded := s.succeeded[run := false], repo := CreateWorktree(s.repo, run)));
  }

  lemma FinishRunKeeps(s: Store, run: string, ok: bool)
    requires Inv(s) && run in s.succeeded
    ensures var s' := s.(succeeded := s.succeeded[run := ok]); Inv(s') && Onward(s, s')
  {
  }

  lemma SurroundingsKeep(s: Store, op: Op)
    requires Inv(s)
    requires op.StartRun? || op.FinishRun? || op.NodeStepAdded? || op.ArtifactAdded? || op.OtherApproval? || op.Outside?
    ensures Inv(Apply(s, op)) && Onward(s, Apply(s, op))
  {
    hide Inv, Onward, CreateWorktree;
    UnmovedIsOnward(s);
    match op
    case StartRun(run) => if run !in s.succeeded { StartRunKeeps(s, run); }
    case FinishRun(run, ok) => if run in s.succeeded { FinishRunKeeps(s, run, ok); }
    case NodeStepAdded(name, run) => MoveSteps(s, AddStep(s.steps, NodeStep(name), run));
    case ArtifactAdded(artifact) => NoteArtifact(s, artifact);
    case OtherApproval(name, digest) => AddRow(s, Approval(NodeStep(name), digest, Pending, None));
    case Outside(repo) => if Evolved(s.repo, repo) { MoveRepo(s, repo); }
  }

  /** Every transition keeps the invariant. */
  lemma ApplyKeeps(s: Store, op: Op)
    requires Inv(s)
    ensures Inv(Apply(s, op)) && Onward(s, Apply(s, op))
  {
    hide Inv;
    UnmovedIsOnward(s);
    if HonestGit(s, op) && WellFormed(s.repo.commits) {
      match op
      case DoPrepare(run, mergeBase, dies) => PrepareKeeps(s, run, mergeBase, dies);
      case DoMarkReady(imp, verdict, validations) => MarkReadyKeeps(s, imp, verdict, validations);
      case DoRequest(imp, dies) => RequestKeeps(s, imp, dies);
      case DoMerge(imp, approval, auto, dies) => MergeKeeps(s, imp, approval, auto, dies);
      case DoReject(imp, dies) => RejectKeeps(s, imp, dies);
      case Decision(id, approve) => DecisionKeeps(s, id, if approve then Approved else Rejected);
      case _ => SurroundingsKeep(s, op);
    }
  }

  lemma {:induction false} RunKeeps(s: Store, ops: seq<Op>)
    requires Inv(s)
    ensures Inv(Run(s, ops)) && Onward(s, Run(s, ops))
    decreases |ops|
  {
    hide Inv, Apply;
    if ops == [] {
      UnmovedIsOnward(s);
    } else {
      ApplyKeeps(s, ops[0]);
      RunKeeps(Apply(s, ops[0]), ops[1..]);
      OnwardTransitive(s, Apply(s, ops[0]), Run(s, ops));
    }
  }

  ghost predicate Reachable(s: Store) {
    exists start: Store, ops: seq<Op> :: Empty(start) && Run(start, ops) == s
  }

  lemma ReachableKeepsInv(s: Store)
    requires Reachable(s)
    ensures Inv(s)
  {
    var start, ops :| Empty(start) && Run(start, ops) == s;
    RunKeeps(start, ops);
  }

  lemma {:induction false} RunAppends(s: Store, ops: seq<Op>, op: Op)
    ensures Run(s, ops + [op]) == Apply(Run(s, ops), op)
    decreases |ops|
  {
    hide Apply;
    if ops == [] {
      assert Run(s, [op]) == Run(Apply(s, op), []);
    } else {
      assert (ops + [op])[1..] == ops[1..] + [op];
      RunAppends(Apply(s, ops[0]), ops[1..], op);
    }
  }

  lemma ReachableStep(s: Store, op: Op)
    requires Reachable(s)
    ensures Reachable(Apply(s, op))
  {
    hide Apply, Empty;
    var start, ops :| Empty(start) && Run(start, ops) == s;
    RunAppends(start, ops, op);
  }

  lemma PrepareReachable(s: Store, run: string, mergeBase: Option<CommitId>, dies: bool)
    requires Reachable(s) && HonestGit(s, DoPrepare(run, mergeBase, dies))
    ensures Reachable(Prepare(s, run, mergeBase, dies).0)
  {
    ReachableKeepsInv(s);
    ReachableStep(s, DoPrepare(run, mergeBase, dies));
    hide Reachable, HonestGit, Prepare;
  }

  lemma MarkReachable(s: Store, imp: ImprovementId, verdict: ArtifactId, validations: seq<ArtifactId>)
    requires Reachable(s)
    ensures Reachable(MarkReady(s, imp, verdict, validations).0)
  {
    ReachableKeepsInv(s);
    ReachableStep(s, DoMarkReady(imp, verdict, validations));
    hide Reachable, MarkReady;
  }

  lemma RequestReachable(s: Store, imp: ImprovementId, dies: bool)
    requires Reachable(s)
    ensures Reachable(RequestMerge(s, imp, dies).0)
  {
    ReachableKeepsInv(s);
    ReachableStep(s, DoRequest(imp, dies));
    hide Reachable, RequestMerge;
  }

  lemma MergeReachable(s: Store, imp: ImprovementId, approval: nat, auto: Option<Tree>, dies: Death)
    requires Reachable(s) && WellFormed(s.repo.commits)
    ensures Reachable(Merge(s, imp, approval, auto, dies).0)
  {
    ReachableStep(s, DoMerge(imp, approval, auto, dies));
    hide Reachable, Merge;
  }

  lemma RejectReachable(s: Store, imp: ImprovementId, dies: Death)
    requires Reachable(s)
    ensures Reachable(RejectProposal(s, imp, dies).0)
  {
    ReachableKeepsInv(s);
    ReachableStep(s, DoReject(imp, dies));
    hide Reachable, RejectProposal;
  }
}
