/** Whether a closed proposal stays closed. */
module ProposalClosed {
  import opened Base
  import opened ApprovalTable
  import opened Git
  import opened Proposals
  import opened ProposalProofs
  import opened ProposalTheorems

  // ------------------------------------------------------ without its worktree

  ghost predicate Gone(s: Store, imp: ImprovementId) {
    && imp < |s.proposals| && Closed(s.proposals[imp])
    && s.proposals[imp].run in s.succeeded && s.proposals[imp].run !in s.repo.worktrees
  }

  ghost predicate Kept(s: Store, s': Store, imp: ImprovementId)
    requires imp < |s.proposals|
  {
    Gone(s', imp) && s'.proposals[imp] == s.proposals[imp]
  }

  lemma PrepareKeepsGone(s: Store, run: string, mergeBase: Option<CommitId>, dies: bool, imp: ImprovementId)
    requires Inv(s) && Gone(s, imp)
    ensures Kept(s, Prepare(s, run, mergeBase, dies).0, imp)
  {
    hide Inv, GoodProposal;
  }

  lemma LandTouchesOneRow(s: Store, other: ImprovementId, auto: Option<Tree>, dies: Death)
    requires ValidRepo(s.repo) && WellFormed(s.repo.commits) && other < |s.proposals|
    ensures
      var s' := Land(s, other, auto, dies).0;
      && s'.repo.worktrees.Keys <= s.repo.worktrees.Keys && s'.succeeded == s.succeeded
      && |s'.proposals| == |s.proposals|
      && forall i | 0 <= i < |s.proposals| && i != other :: s'.proposals[i] == s.proposals[i]
  {
    var p := s.proposals[other];
    var r := MergeBranch(s.repo, p.candidateBranch, auto).0;
    MergeEvolves(s.repo, p.candidateBranch, auto);
    EvolvedIsValid(s.repo, r);
    RemoveWorktreeEvolves(r, p.run);
    hide MergeBranch, RemoveWorktree, ValidRepo;
  }

  lemma PassingHasWorktree(s: Store, other: ImprovementId, approval: nat)
    requires MergeError(s, other, approval).None?
    ensures other < |s.proposals| && s.proposals[other].run in s.repo.worktrees
  {
  }

  lemma MergeKeepsGone(
    s: Store, other: ImprovementId, approval: nat, auto: Option<Tree>, dies: Death, imp: ImprovementId)
    requires Inv(s) && WellFormed(s.repo.commits) && Gone(s, imp)
    ensures Kept(s, Merge(s, other, approval, auto, dies).0, imp)
  {
    InvIsValid(s);
    hide Inv, Land, ValidRepo, MergeError;
    if MergeError(s, other, approval).None? {
      PassingHasWorktree(s, other, approval);
      LandTouchesOneRow(s, other, auto, dies);
    }
  }

  lemma OthersKeepGone(s: Store, op: Op, imp: ImprovementId)
    requires Gone(s, imp) && !op.DoPrepare? && !op.DoMerge?
    ensures Kept(s, Apply(s, op), imp)
  {
    hide ValidRepo, Ancestor;
  }

  lemma ApplyKeepsGone(s: Store, op: Op, imp: ImprovementId)
    requires Inv(s) && Gone(s, imp)
    ensures Kept(s, Apply(s, op), imp)
  {
    InvIsValid(s);
    hide Inv, Gone, Prepare, Merge;
    match op
    case DoPrepare(run, mergeBase, dies) => PrepareKeepsGone(s, run, mergeBase, dies, imp);
    case DoMerge(other, approval, auto, dies) => MergeKeepsGone(s, other, approval, auto, dies, imp);
    case _ => OthersKeepGone(s, op, imp);
  }

  lemma {:induction false} RunKeepsGone(s: Store, ops: seq<Op>, imp: ImprovementId)
    requires Inv(s) && Gone(s, imp)
    ensures Kept(s, Run(s, ops), imp)
    decreases |ops|
  {
    hide Inv, Apply;
    if ops != [] {
      ApplyKeeps(s, ops[0]);
      ApplyKeepsGone(s, ops[0], imp);
      RunKeepsGone(Apply(s, ops[0]), ops[1..], imp);
    }
  }

  /** Closed stays closed: once a proposal is merged or rejected and its worktree
      is gone, no later history, crashes included, changes its row in any field or
      lets any merge of it pass its checks, although `prepare` resets the rows it
      finds whatever their status. */
  lemma ClosedForEver(s: Store, later: seq<Op>, imp: ImprovementId, approval: nat)
    requires Reachable(s) && imp < |s.proposals| && Closed(s.proposals[imp])
    requires s.proposals[imp].run !in s.repo.worktrees
    ensures
      var now := Run(s, later);
      && imp < |now.proposals| && now.proposals[imp] == s.proposals[imp]
      && MergeError(now, imp, approval).Some?
  {
    ReachableKeepsInv(s);
    assert GoodProposal(s, s.proposals[imp]);
    hide Inv, Reachable, Run;
    RunKeepsGone(s, later, imp);
  }

  // -------------------------------------------------------- with its worktree

  const OLD: Tree := map[]
  const NEW: Tree := map["f" := File(0, "x")]
  const TARGET := "t"

  /** Two new commits: the target branch at one, the run's worktree at the other. */
  function Rebuilt(r: Repo, run: string): Repo {
    var base, candidate := r.next, r.next + 1;
    r.(commits := r.commits[base := Commit([], OLD)][candidate := Commit([base], NEW)], next := r.next + 2,
       branches := r.branches[TARGET := base], head := OnBranch(TARGET),
       worktrees := r.worktrees[run := Detached(candidate)])
  }

  lemma RebuiltEvolves(r: Repo, run: string)
    requires ValidRepo(r) && run in r.worktrees
    ensures Evolved(r, Rebuilt(r, run))
    ensures IsMergeBase(Rebuilt(r, run).commits, r.next, r.next + 1, Some(r.next))
  {
    var d := Rebuilt(r, run).commits;
    assert d[r.next + 1].parents[0] == r.next;
    assert WellFormed(d);
    assert Ancestor(d, r.next, d[r.next + 1].parents[0]);
    forall c | c in d && Ancestor(d, c, r.next) && Ancestor(d, r.next, c) ensures c == r.next {
      AncestorIsOlder(d, c, r.next);
      AncestorIsOlder(d, r.next, c);
    }
  }

  lemma {:induction false} LongerThanAll(names: set<string>) returns (bound: nat)
    ensures forall name | name in names :: |name| < bound
  {
    bound := 0;
    if names != {} {
      var name :| name in names;
      bound := LongerThanAll(names - {name});
      bound := if bound > |name| then bound else |name| + 1;
    }
  }

  function NodeNames(steps: map<StepId, Step>): set<string> {
    set id | id in steps && id.NodeStep? :: id.name
  }

  lemma Named(steps: map<StepId, Step>, name: string)
    ensures NodeStep(name) in steps ==> name in NodeNames(steps)
  {
    var id := NodeStep(name);
    assert id.name == name;
  }

  /** A node name no step has yet. */
  lemma UnusedName(steps: map<StepId, Step>) returns (name: string)
    ensures NodeStep(name) !in steps
  {
    var bound := LongerThanAll(NodeNames(steps));
    name := seq(bound, _ => 'n');
    Named(steps, name);
  }

  lemma PreparesAgain(s: Store, r: Repo, imp: ImprovementId)
    requires Inv(s) && ValidRepo(r) && imp < |s.proposals| && s.proposals[imp].run in r.worktrees
    requires s.repo == Rebuilt(r, s.proposals[imp].run)
    requires s.proposals[imp].run in s.succeeded && s.succeeded[s.proposals[imp].run]
    requires HasSteps(s.steps, s.proposals[imp].run)
    ensures
      var run := s.proposals[imp].run;
      && HonestGit(s, DoPrepare(run, Some(r.next), false))
      && |Prepare(s, run, Some(r.next), false).0.proposals| == |s.proposals|
      && Prepare(s, run, Some(r.next), false).0.proposals[imp].status == Draft
  {
    var run := s.proposals[imp].run;
    OwnProposalFound(s, imp);
    DiffRoundTrip(OLD, NEW);
    assert "f" in NEW && "f" !in OLD;
    HonestAnswer(s, r, run);
    hide Inv, IsMergeBase, Ancestor, Diff, FindProposal, HasSteps, HonestGit, ValidRepo, WellFormed;
  }

  lemma HonestAnswer(s: Store, r: Repo, run: string)
    requires ValidRepo(r) && run in r.worktrees && s.repo == Rebuilt(r, run)
    ensures HonestGit(s, DoPrepare(run, Some(r.next), false))
  {
    RebuiltEvolves(r, run);
    hide IsMergeBase, Ancestor, ValidRepo;
  }

  lemma RunFirst(s: Store, op: Op, rest: seq<Op>)
    ensures Run(s, [op] + rest) == Run(Apply(s, op), rest)
  {
    hide Apply;
    assert ([op] + rest)[1..] == rest;
  }

  lemma RunFour(s: Store, a: Op, b: Op, c: Op, d: Op)
    ensures Run(s, [a, b, c, d]) == Apply(Apply(Apply(Apply(s, a), b), c), d)
  {
    var s1 := Apply(s, a);
    var s2 := Apply(s1, b);
    var s3 := Apply(s2, c);
    assert Run(s, [a] + [b, c, d]) == Run(s1, [b, c, d]) by { RunFirst(s, a, [b, c, d]); }
    assert Run(s1, [b] + [c, d]) == Run(s2, [c, d]) by { RunFirst(s1, b, [c, d]); }
    assert Run(s2, [c] + [d]) == Run(s3, [d]) by { RunFirst(s2, c, [d]); }
    assert Run(s3, [d] + []) == Apply(s3, d) by { RunFirst(s3, d, []); }
    hide Apply, Run;
    assert [a] + [b, c, d] == [a, b, c, d] && [b] + [c, d] == [b, c, d] && [c] + [d] == [c, d] && [d] + [] == [d];
  }

  lemma StepAdded(s: Store, name: string, run: string)
    requires NodeStep(name) !in s.steps
    ensures HasSteps(AddStep(s.steps, NodeStep(name), run), run)
  {
    assert AddStep(s.steps, NodeStep(name), run)[NodeStep(name)].run == run;
  }

  /** With its worktree left behind a closed proposal can be reopened: the run is
      marked finished, others commit to its worktree, and it is prepared again. */
  lemma LeftoverReopens(s: Store, imp: ImprovementId) returns (later: seq<Op>)
    requires Inv(s) && imp < |s.proposals| && Leftover(s, s.proposals[imp])
    ensures imp < |Run(s, later).proposals| && Run(s, later).proposals[imp].status == Draft
  {
    var p := s.proposals[imp];
    var name := UnusedName(s.steps);
    var finish, node := FinishRun(p.run, true), NodeStepAdded(name, p.run);
    var outside, prepare := Outside(Rebuilt(s.repo, p.run)), DoPrepare(p.run, Some(s.repo.next), false);
    later := [finish, node, outside, prepare];
    RunFour(s, finish, node, outside, prepare);
    assert GoodProposal(s, p);
    hide Run, Inv, GoodProposal;
    ReadyToReopen(s, imp, name);
    var s3 := s.(succeeded := s.succeeded[p.run := true], steps := AddStep(s.steps, NodeStep(name), p.run),
                 repo := Rebuilt(s.repo, p.run));
    hide Rebuilt, HasSteps, Prepare, HonestGit, ValidRepo, WellFormed, Apply;
    PreparesAgain(s3, s.repo, imp);
  }

  lemma ReadyToReopen(s: Store, imp: ImprovementId, name: string)
    requires Inv(s) && imp < |s.proposals| && Leftover(s, s.proposals[imp]) && s.proposals[imp].run in s.succeeded
    requires NodeStep(name) !in s.steps
    ensures
      var run := s.proposals[imp].run;
      var s3 := s.(succeeded := s.succeeded[run := true], steps := AddStep(s.steps, NodeStep(name), run),
                   repo := Rebuilt(s.repo, run));
      && s3 == Apply(Apply(Apply(s, FinishRun(run, true)), NodeStepAdded(name, run)), Outside(Rebuilt(s.repo, run)))
      && Inv(s3) && ValidRepo(s.repo) && HasSteps(s3.steps, run)
  {
    var run := s.proposals[imp].run;
    var s1 := s.(succeeded := s.succeeded[run := true]);
    var s2 := s1.(steps := AddStep(s1.steps, NodeStep(name), run));
    InvIsValid(s);
    RebuiltEvolves(s.repo, run);
    FinishRunKeeps(s, run, true);
    MoveSteps(s1, s2.steps);
    MoveRepo(s2, Rebuilt(s.repo, run));
    StepAdded(s1, name, run);
    ApplySimple(s, FinishRun(run, true));
    ApplySimple(s1, NodeStepAdded(name, run));
    ApplySimple(s2, Outside(Rebuilt(s.repo, run)));
    hide Inv, Evolved, Rebuilt, HasSteps, IsMergeBase, Onward, AddStep, Apply, ValidRepo, WellFormed;
  }

  lemma ApplySimple(s: Store, op: Op)
    requires WellFormed(s.repo.commits) && (op.FinishRun? || op.NodeStepAdded? || op.Outside?)
    ensures Apply(s, op) == match op
      case FinishRun(run, ok) => if run in s.succeeded then s.(succeeded := s.succeeded[run := ok]) else s
      case NodeStepAdded(name, run) => s.(steps := AddStep(s.steps, NodeStep(name), run))
      case Outside(repo) => if Evolved(s.repo, repo) then s.(repo := repo) else s
      case _ => s
  {
  }

  /** Exactly when a closed proposal is closed for good: nothing that can still
      happen changes its row if and only if its worktree was not left behind. */
  lemma ClosedForGoodExactly(s: Store, imp: ImprovementId)
    requires Reachable(s) && imp < |s.proposals| && Closed(s.proposals[imp])
    ensures (forall later: seq<Op> :: Keeps(s, later, imp)) <==> !Leftover(s, s.proposals[imp])
  {
    if Leftover(s, s.proposals[imp]) {
      ReachableKeepsInv(s);
      var later := LeftoverReopens(s, imp);
      hide Run, Inv, Reachable;
      assert !Keeps(s, later, imp);
    } else {
      forall later: seq<Op> ensures Keeps(s, later, imp) { ClosedForEver(s, later, imp, 0); }
    }
  }

  ghost predicate Keeps(s: Store, later: seq<Op>, imp: ImprovementId)
    requires imp < |s.proposals|
  {
    imp < |Run(s, later).proposals| && Run(s, later).proposals[imp] == s.proposals[imp]
  }
}
