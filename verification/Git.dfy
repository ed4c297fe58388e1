/** Git as the merge protocol uses it (`isolation/worktree.py`,
    `improvement/diff.py`): a commit graph with trees, branches, worktrees. */
module Git {
  import opened Base

  /** Commit ids are handed out in creation order, so parents are smaller. */
  type CommitId = nat
  type Branch = string
  /** What `git diff --binary` compares of a path: its mode and its bytes. */
  datatype File = File(mode: nat, bytes: string)
  type Tree = map<string, File>

  datatype Commit = Commit(parents: seq<CommitId>, tree: Tree)
  type Dag = map<CommitId, Commit>

  datatype Head = OnBranch(branch: Branch) | Detached(at: CommitId)

  datatype Repo = Repo(
    commits: Dag, next: CommitId, branches: map<Branch, CommitId>, head: Head, dirty: bool,
    worktrees: map<string, Head>)

  // -------------------------------------------------------------- the graph

  predicate WellFormed(d: Dag) {
    forall c | c in d :: forall i | 0 <= i < |d[c].parents| :: d[c].parents[i] in d && d[c].parents[i] < c
  }

  predicate Ancestor(d: Dag, a: CommitId, c: CommitId)
    requires WellFormed(d)
    decreases c
  {
    a in d && c in d && (a == c || exists i | 0 <= i < |d[c].parents| :: Ancestor(d, a, d[c].parents[i]))
  }

  predicate ValidHead(r: Repo, h: Head) {
    h.Detached? ==> h.at in r.commits
  }

  predicate ValidRepo(r: Repo) {
    && WellFormed(r.commits)
    && (forall c | c in r.commits :: c < r.next)
    && (forall b | b in r.branches :: r.branches[b] in r.commits)
    && ValidHead(r, r.head)
    && (forall w | w in r.worktrees :: ValidHead(r, r.worktrees[w]))
  }

  /** `git rev-parse HEAD`; none for an unborn branch. */
  function HeadCommit(r: Repo, h: Head): Option<CommitId> {
    match h
    case Detached(c) => Some(c)
    case OnBranch(b) => if b in r.branches then Some(r.branches[b]) else None
  }

  /** What `git merge-base a b` may print: a common ancestor below no other. */
  ghost predicate IsMergeBase(d: Dag, a: CommitId, b: CommitId, answer: Option<CommitId>)
    requires WellFormed(d)
  {
    match answer
    case None => forall c | c in d :: !(Ancestor(d, c, a) && Ancestor(d, c, b))
    case Some(m) =>
      && Ancestor(d, m, a) && Ancestor(d, m, b)
      && forall c | c in d && Ancestor(d, c, a) && Ancestor(d, c, b) && Ancestor(d, m, c) :: c == m
  }

  lemma {:induction false} AncestorIsOlder(d: Dag, a: CommitId, c: CommitId)
    requires WellFormed(d) && Ancestor(d, a, c)
    ensures a <= c
    decreases c
  {
    if a != c {
      var i :| 0 <= i < |d[c].parents| && Ancestor(d, a, d[c].parents[i]);
      AncestorIsOlder(d, a, d[c].parents[i]);
    }
  }

  lemma {:induction false} AncestorTransitive(d: Dag, a: CommitId, b: CommitId, c: CommitId)
    requires WellFormed(d) && Ancestor(d, a, b) && Ancestor(d, b, c)
    ensures Ancestor(d, a, c)
    decreases c
  {
    if b != c {
      var i :| 0 <= i < |d[c].parents| && Ancestor(d, b, d[c].parents[i]);
      AncestorTransitive(d, a, b, d[c].parents[i]);
    }
  }

  /** Commits are immutable, so a larger graph keeps every ancestry. */
  lemma {:induction false} AncestorStable(d: Dag, d': Dag, a: CommitId, c: CommitId)
    requires WellFormed(d) && WellFormed(d') && Grows(d, d') && c in d
    ensures Ancestor(d, a, c) <==> Ancestor(d', a, c)
    decreases c
  {
    assert d'[c] == d[c];
    forall i | 0 <= i < |d[c].parents|
      ensures Ancestor(d, a, d[c].parents[i]) <==> Ancestor(d', a, d'[c].parents[i])
    {
      AncestorStable(d, d', a, d[c].parents[i]);
    }
  }

  predicate Grows(d: Dag, d': Dag) {
    forall c | c in d :: c in d' && d'[c] == d[c]
  }

  // ------------------------------------------------------------------- diffs

  datatype Change = Change(before: Option<File>, after: Option<File>)
  type Patch = map<string, Change>

  function Blob(t: Tree, path: string): Option<File> {
    if path in t then Some(t[path]) else None
  }

  /** `git diff --binary a b`. */
  function Diff(a: Tree, b: Tree): Patch {
    map path | path in a.Keys + b.Keys && Blob(a, path) != Blob(b, path) :: Change(Blob(a, path), Blob(b, path))
  }

  /** `git apply`. */
  function Patched(a: Tree, p: Patch): Tree {
    map path | path in a.Keys + p.Keys && (path in p ==> p[path].after.Some?) ::
      if path in p then p[path].after.value else a[path]
  }

  /** A patch carries the whole difference: applied to the base it gives the
      candidate back, and it is empty exactly when there is none. */
  lemma DiffRoundTrip(a: Tree, b: Tree)
    ensures Patched(a, Diff(a, b)) == b
    ensures Diff(a, b) == map[] <==> a == b
  {
  }

  // ---------------------------------------------------------------- commands

  function RunBranch(run: string): Branch {
    "awf/run/" + run
  }

  predicate CheckedOut(r: Repo, worktrees: map<string, Head>, b: Branch) {
    r.head == OnBranch(b) || exists w | w in worktrees :: worktrees[w] == OnBranch(b)
  }

  /** `create_worktree` at the repository's HEAD. */
  function CreateWorktree(r: Repo, run: string): Repo {
    var b := RunBranch(run);
    if b in r.branches || HeadCommit(r, r.head).None? || run in r.worktrees then r
    else r.(branches := r.branches[b := HeadCommit(r, r.head).value], worktrees := r.worktrees[run := OnBranch(b)])
  }

  /** `remove_worktree`: the directory goes, and its run branch with it unless
      that branch is still checked out somewhere. */
  function RemoveWorktree(r: Repo, run: string): Repo {
    var rest := r.worktrees - {run};
    var b := RunBranch(run);
    r.(worktrees := rest, branches := if CheckedOut(r, rest, b) then r.branches else r.branches - {b})
  }

  datatype MergeResult = Conflicted | AlreadyUpToDate | Merged

  /** `merge_branch`: `git merge --no-ff branch` into whatever is checked out.
      `auto` is git's answer when a real three-way merge is needed. */
  function MergeBranch(r: Repo, branch: Branch, auto: Option<Tree>): (Repo, MergeResult)
    requires WellFormed(r.commits)
  {
    var ours := HeadCommit(r, r.head);
    if branch !in r.branches || ours.None? || ours.value !in r.commits || r.branches[branch] !in r.commits then
      (r, Conflicted)
    else
      var theirs := r.branches[branch];
      if Ancestor(r.commits, theirs, ours.value) then (r, AlreadyUpToDate)
      else
        var tree := if Ancestor(r.commits, ours.value, theirs) then Some(r.commits[theirs].tree) else auto;
        if tree.None? then (r, Conflicted)
        else (Advance(r, Commit([ours.value, theirs], tree.value)), Merged)
  }

  /** A new commit on whatever is checked out. */
  function Advance(r: Repo, commit: Commit): Repo {
    var r' := r.(commits := r.commits[r.next := commit], next := r.next + 1);
    match r.head
    case OnBranch(b) => r'.(branches := r.branches[b := r.next])
    case Detached(_) => r'.(head := Detached(r.next))
  }

  // --------------------------------------------------------------- evolution

  /** What anyone else may do to the repository: history only grows, and no
      worktree appears for a run that has none. */
  ghost predicate Evolved(r: Repo, r': Repo) {
    && ValidRepo(r') && Grows(r.commits, r'.commits) && r.next <= r'.next
    && r'.worktrees.Keys <= r.worktrees.Keys
  }

  lemma RemoveWorktreeEvolves(r: Repo, run: string)
    requires ValidRepo(r)
    ensures Evolved(r, RemoveWorktree(r, run)) && run !in RemoveWorktree(r, run).worktrees
  {
  }

  lemma MergeEvolves(r: Repo, branch: Branch, auto: Option<Tree>)
    requires ValidRepo(r)
    ensures Evolved(r, MergeBranch(r, branch, auto).0)
    ensures MergeBranch(r, branch, auto).0.worktrees == r.worktrees
  {
    var r' := MergeBranch(r, branch, auto).0;
    if r' != r {
      forall c | c in r'.commits
        ensures forall i | 0 <= i < |r'.commits[c].parents| ::
                  r'.commits[c].parents[i] in r'.commits && r'.commits[c].parents[i] < c
      {
      }
    }
  }

}
