/** What a merge puts on the target branch. */
module ProposalLanding {
  import opened Base
  import opened ApprovalTable
  import opened Git
  import opened Proposals
  import opened ProposalProofs

  /** The target branch is checked out and the candidate branch is at the
      reviewed commit. `merge` checks neither. */
  predicate Attended(r: Repo, p: Proposal) {
    && r.head == OnBranch(p.target)
    && p.candidateBranch in r.branches && r.branches[p.candidateBranch] == p.candidate
  }

  /** The target branch now ends in a merge of exactly base and candidate. */
  predicate LandedOnTarget(r: Repo, p: Proposal) {
    && p.target in r.branches && r.branches[p.target] in r.commits
    && r.commits[r.branches[p.target]].parents == [p.base, p.candidate]
  }

  /** The facts the recheck and the invariant leave about git. */
  lemma RecheckedFacts(s: Store, imp: ImprovementId, approval: nat)
    requires Inv(s) && MergeError(s, imp, approval).None?
    ensures
      var p := s.proposals[imp];
      var r := s.repo;
      && ValidRepo(r)
      && p.target in r.branches && r.branches[p.target] == p.base
      && p.candidate in r.commits && p.base in r.commits && p.base != p.candidate
      && Ancestor(r.commits, p.base, p.candidate) && !Ancestor(r.commits, p.candidate, p.base)
      && p.diffDigest == Sha256(Diff(r.commits[p.base].tree, r.commits[p.candidate].tree))
  {
    var p := s.proposals[imp];
    assert GoodProposal(s, p);
    AncestorIsOlder(s.repo.commits, p.base, p.candidate);
    if Ancestor(s.repo.commits, p.candidate, p.base) { AncestorIsOlder(s.repo.commits, p.candidate, p.base); }
  }

  lemma RemoveKeepsHeadBranch(r: Repo, run: string)
    requires r.head.OnBranch? && r.head.branch in r.branches
    ensures r.head.branch in RemoveWorktree(r, run).branches
    ensures RemoveWorktree(r, run).branches[r.head.branch] == r.branches[r.head.branch]
  {
  }

  /** With an attended repository the three-way case never arises: the merge
      commit has parents base and candidate and the candidate's tree. */
  lemma AttendedMerge(r: Repo, p: Proposal, auto: Option<Tree>)
    requires ValidRepo(r) && Attended(r, p) && p.target in r.branches && r.branches[p.target] == p.base
    requires Ancestor(r.commits, p.base, p.candidate) && !Ancestor(r.commits, p.candidate, p.base)
    ensures MergeBranch(r, p.candidateBranch, auto) ==
            (Advance(r, Commit([p.base, p.candidate], r.commits[p.candidate].tree)), Merged)
  {
  }

  /** What lands is what was reviewed: once its checks pass on an attended
      repository, a merge cannot conflict whatever git would have made of a real
      three-way merge; the target branch ends in a commit of exactly base and
      candidate, whose tree is the candidate's, whose difference from the base has
      the reviewed digest, and which is the base with that patch applied. */
  lemma MergeLandsReviewed(s: Store, imp: ImprovementId, approval: nat, auto: Option<Tree>, dies: Death)
    requires Reachable(s) && WellFormed(s.repo.commits)
    requires dies != AfterGit && MergeError(s, imp, approval).None? && Attended(s.repo, s.proposals[imp])
    ensures Merge(s, imp, approval, auto, dies).1 == (if dies == Survives then Ok else Died)
    ensures
      var p := s.proposals[imp];
      var r := Merge(s, imp, approval, auto, dies).0.repo;
      && LandedOnTarget(r, p)
      && var landed := r.branches[p.target];
         && r.commits[landed].tree == s.repo.commits[p.candidate].tree
         && Sha256(Diff(s.repo.commits[p.base].tree, r.commits[landed].tree)) == p.diffDigest
         && Patched(s.repo.commits[p.base].tree, p.diffDigest.preimage) == r.commits[landed].tree
         && Merge(s, imp, approval, auto, dies).0.proposals[imp].mergeCommit == Some(landed)
  {
    ReachableKeepsInv(s);
    RecheckedFacts(s, imp, approval);
    var p := s.proposals[imp];
    AttendedMerge(s.repo, p, auto);
    var r := Advance(s.repo, Commit([p.base, p.candidate], s.repo.commits[p.candidate].tree));
    RemoveKeepsHeadBranch(r, p.run);
    DiffRoundTrip(s.repo.commits[p.base].tree, s.repo.commits[p.candidate].tree);
    hide Inv, Reachable, MergeError, MergeBranch;
  }

  /** Exactly when a successful merge lands on the target branch: the branch is
      checked out and the candidate branch still points at the reviewed commit. */
  lemma LandsExactlyWhenAttended(s: Store, imp: ImprovementId, approval: nat, auto: Option<Tree>)
    requires Reachable(s) && WellFormed(s.repo.commits)
    requires Merge(s, imp, approval, auto, Survives).1 == Ok
    ensures LandedOnTarget(Merge(s, imp, approval, auto, Survives).0.repo, s.proposals[imp])
            <==> Attended(s.repo, s.proposals[imp])
  {
    ReachableKeepsInv(s);
    RecheckedFacts(s, imp, approval);
    if Attended(s.repo, s.proposals[imp]) {
      MergeLandsReviewed(s, imp, approval, auto, Survives);
    } else {
      var p := s.proposals[imp];
      UnattendedMerge(s.repo, p, auto);
      var r := MergeBranch(s.repo, p.candidateBranch, auto).0;
      hide Inv, Reachable, MergeError, MergeBranch, Attended;
      var r' := RemoveWorktree(r, p.run);
      assert r'.commits == r.commits;
      assert p.target in r'.branches ==> p.target in r.branches && r'.branches[p.target] == r.branches[p.target];
    }
  }

  lemma BaseIsNotItsOwnMerge(d: Dag, base: CommitId, candidate: CommitId)
    requires WellFormed(d) && base in d
    ensures d[base].parents != [base, candidate]
  {
    var parents := d[base].parents;
    if |parents| > 0 {
      assert parents[0] < base;
      assert [base, candidate][0] == base;
    }
  }

  lemma UnattendedMerge(r: Repo, p: Proposal, auto: Option<Tree>)
    requires ValidRepo(r) && !Attended(r, p) && p.target in r.branches && r.branches[p.target] == p.base
    requires p.base in r.commits
    ensures !LandedOnTarget(MergeBranch(r, p.candidateBranch, auto).0, p)
  {
    BaseIsNotItsOwnMerge(r.commits, p.base, p.candidate);
    var (r', result) := MergeBranch(r, p.candidateBranch, auto);
    if result == Merged {
      assert p.base < r.next;
      if r.head == OnBranch(p.target) {
        var theirs := r.branches[p.candidateBranch];
        assert r'.commits[r.next].parents == [p.base, theirs];
        assert [p.base, theirs][1] == theirs && [p.base, p.candidate][1] == p.candidate;
      } else {
        assert r'.branches[p.target] == p.base;
      }
    }
  }
}
