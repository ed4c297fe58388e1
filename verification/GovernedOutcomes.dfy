/** What each call answers, and what it leaves behind: the outcome of every call is
    settled by the step, its row and the capability, the status by the outcome. */
module GovernedOutcomes {
  import opened Base
  import opened ApprovalTable
  import opened CapabilityGuard
  import opened MachineAction
  import opened Governed
  import opened GovernedProofs
  import opened GovernedTheorems

  predicate StepIs(l: Ledger, step: string, status: StepStatus) {
    step in l.steps && l.steps[step] == status
  }

  predicate RunIs(l: Ledger, run: string, status: RunStatus) {
    run in l.runs ==> l.runs[run] == status
  }

  /** Only this step, this run, and the ends of table and log may change. */
  ghost predicate OnlyTouches(l: Ledger, l': Ledger, run: string, step: string) {
    && l'.steps.Keys == l.steps.Keys && l'.runs.Keys == l.runs.Keys
    && (forall s | s in l.steps && s != step :: l'.steps[s] == l.steps[s])
    && (forall r | r in l.runs && r != run :: l'.runs[r] == l.runs[r])
    && l.approvals <= l'.approvals && l.log <= l'.log
  }

  /** The answer "waiting" names a row of the step for this very action: one that was
      there, and then nothing changed, or a new pending one that parks step and run. */
  ghost predicate Parked(l: Ledger, l': Ledger, id: nat, run: string, step: string, digest: Digest<Preimage>,
      risk: Option<Risk>) {
    && id < |l'.approvals| && l'.approvals[id].step == step && l'.approvals[id].digest == digest
    && if id < |l.approvals| then l' == l
       else && l'.approvals == l.approvals + [Approval(step, digest, Pending, risk)] && id == |l.approvals|
            && StepIs(l', step, StepWaiting) && RunIs(l', run, RunWaiting) && l'.log == l.log
  }

  /** What a body leaves by the way it ended. */
  ghost predicate Ended(l: Ledger, l': Ledger, step: string, fate: Fate, outcome: Outcome) {
    && (outcome.Ran? ==> fate == Completes && StepIs(l', step, StepSucceeded) && l'.runs == l.runs)
    && (outcome.BodyFailed? ==> fate == BodyRaises && StepIs(l', step, StepFailed))
    && (outcome.Died? ==> if fate == DiesBeforeCommit then l' == l else StepIs(l', step, StepRunning))
    && (l'.log != l.log && !outcome.Died? ==> outcome.Ran? || outcome.BodyFailed?)
  }

  /** What a call that is not answered from the step's row leaves, by its answer. A
      body that completes leaves its step SUCCEEDED; one that raises, and a refusal
      that is recorded, leave it FAILED, and the run too if `failsRun`; a death in or
      before the body leaves it RUNNING. */
  ghost predicate Left(
    l: Ledger, l': Ledger, outcome: Outcome, run: string, step: string, fate: Fate, failsRun: bool)
  {
    && OnlyTouches(l, l', run, step) && Ended(l, l', step, fate, outcome)
    && (outcome.BodyFailed? || (outcome.Refused? && l' != l) ==> StepIs(l', step, StepFailed))
    && (outcome.BodyFailed? || outcome.Refused? ==> if failsRun then RunIs(l', run, RunFailed) else l'.runs == l.runs)
    && (outcome.Refused? ==> l'.log == l.log && l'.approvals == l.approvals)
    && (failsRun && outcome.Refused? ==> StepIs(l', step, StepFailed))
    && !outcome.Passed?
  }

  lemma ExecuteLeaves(l: Ledger, run: string, step: string, e: Executed, fate: Fate)
    requires step in l.steps && (e.MachineRan? ==> e.action.run == run)
    ensures Left(l, Execute(l, step, e, fate).0, Execute(l, step, e, fate).1, run, step, fate, e.MachineRan?)
    ensures Execute(l, step, e, fate).1 == match fate
      case Completes => Ran
      case BodyRaises => BodyFailed
      case _ => Died
  {
  }

  lemma MarkFailedLeaves(l: Ledger, run: string, step: string, fate: Fate, why: Refusal)
    requires step in l.steps
    ensures Left(l, MarkFailed(l, run, step, fate, why).0, MarkFailed(l, run, step, fate, why).1, run, step, fate, true)
    ensures MarkFailed(l, run, step, fate, why).1 == if fate == DiesBeforeCommit then Died else Refused(why)
  {
  }

  lemma RequestLeaves(
    l: Ledger, run: string, step: string, digest: Digest<Preimage>, risk: Option<Risk>, fate: Fate, failsRun: bool)
    requires step in l.steps
    ensures
      var (l', outcome) := (RequestApproval(l, run, step, digest, risk), WaitingOn(|l.approvals|));
      Left(l, l', outcome, run, step, fate, failsRun) && Parked(l, l', |l.approvals|, run, step, digest, risk)
  {
  }

  lemma NothingLeft(l: Ledger, outcome: Outcome, run: string, step: string, fate: Fate, failsRun: bool)
    requires outcome.WaitingOn? || outcome.NoStep? || outcome.Cached? || (outcome.Refused? && !failsRun)
        || (outcome.Died? && fate == DiesBeforeCommit)
    ensures Left(l, l, outcome, run, step, fate, failsRun)
  {
  }

  /** The five registered machine activities can be built, and an agent's kind cannot. */
  lemma TheMachineKinds(kind: string)
    ensures kind in {"fs_read", "fs_write", "fs_delete", "command_run", "network_fetch"} ==> IsMachineKind(kind)
    ensures IsMachineKind(kind) ==> kind != AGENT_NODE
  {
    assert AGENT_NODE[0] == 'a';
  }

  // ------------------------------------------------------ what an approval binds

  /** Two machine calls share an approval exactly if they are the same call: kind,
      run, step, node, the whole capability, target and body. */
  lemma MachineApprovalBinds(c: MachineCall, d: MachineCall)
    requires CanBuild(c) && CanBuild(d)
    ensures DigestOf(MachineActionOf(c)) == DigestOf(MachineActionOf(d)) <==> c.(fate := d.fate) == d
  {
    DigestIdentifiesAction(MachineActionOf(c), MachineActionOf(d));
  }

  /** Two agent calls share one exactly if run, step, adapter, role, capability and
      objective are the same; the allowlist is not bound. */
  lemma AgentApprovalBinds(c: AgentCall, d: AgentCall)
    requires c.cap.Some? && d.cap.Some?
    ensures DigestOf(AgentActionOf(c)) == DigestOf(AgentActionOf(d))
            <==> c.(fate := d.fate, allowlist := d.allowlist) == d
  {
    hide DigestOf;
    var a, b := AgentActionOf(c), AgentActionOf(d);
    DigestIdentifiesAction(a, b);
    if a == b {
      assert a.target["adapter"] == b.target["adapter"] && a.target["role"] == b.target["role"];
      assert a.target["objective_digest"] == b.target["objective_digest"];
      KeysDiffer();
    }
  }

  lemma KeysDiffer()
    ensures "adapter" != "role" && "role" != "objective_digest" && "adapter" != "objective_digest"
  {
    assert |"adapter"| == 7 && |"role"| == 4 && |"objective_digest"| == 16;
  }

  // ------------------------------------------------------------- machine nodes

  ghost predicate MachineParked(l: Ledger, l': Ledger, outcome: Outcome, c: MachineCall) {
    outcome.WaitingOn? ==>
      && CanBuild(c)
      && Parked(l, l', outcome.id, c.run, c.step, DigestOf(MachineActionOf(c)), Some(c.cap.risk))
  }

  lemma AuthorizeLeaves(l: Ledger, c: MachineCall)
    requires CanBuild(c) && c.step in l.steps
    ensures
      var (l', outcome) := AuthorizeAndRun(l, c);
      && Left(l, l', outcome, c.run, c.step, c.fate, true) && MachineParked(l, l', outcome, c)
      && !outcome.NoStep? && !outcome.Cached?
  {
    hide DigestOf, Evaluate, Left, Execute, MarkFailed, RequestApproval;
    var a := MachineActionOf(c);
    match Evaluate(c.cap, [c.cap.ref], None)
    case UnknownRole => MarkFailedLeaves(l, c.run, c.step, c.fate, BadRole);
    case Decision(Deny) => MarkFailedLeaves(l, c.run, c.step, c.fate, PolicyDenied);
    case Decision(Allow) => ExecuteLeaves(l, c.run, c.step, MachineRan(a, c.cap), c.fate);
    case Decision(ApprovalRequired) =>
      match FindByStep(l.approvals, c.step)
      case Some(i) =>
        MarkFailedLeaves(l, c.run, c.step, c.fate, DigestMismatch);
        NothingLeft(l, WaitingOn(i), c.run, c.step, c.fate, true);
      case None =>
        RequestLeaves(l, c.run, c.step, DigestOf(a), Some(a.risk), c.fate, true);
        if c.fate == DiesBeforeCommit { NothingLeft(l, Died, c.run, c.step, c.fate, true); }
  }

  /** What every machine call leaves, by what it answers. */
  lemma MachineLeaves(l: Ledger, c: MachineCall)
    ensures
      var (l', outcome) := RunMachine(l, c);
      && Left(l, l', outcome, c.run, c.step, c.fate, true) && MachineParked(l, l', outcome, c)
      && (outcome.NoStep? <==> c.step !in l.steps) && (outcome.Cached? <==> StepIs(l, c.step, StepSucceeded))
      && (outcome.NoStep? || outcome.Cached? ==> l' == l)
  {
    hide DigestOf, Left, Execute, MarkFailed, AuthorizeAndRun;
    NothingLeft(l, NoStep, c.run, c.step, c.fate, true);
    NothingLeft(l, Cached, c.run, c.step, c.fate, true);
    if c.step in l.steps {
      MarkFailedLeaves(l, c.run, c.step, c.fate, BuildFailed);
      MarkFailedLeaves(l, c.run, c.step, c.fate, DigestMismatch);
      MarkFailedLeaves(l, c.run, c.step, c.fate, ApprovalRejected);
      if CanBuild(c) {
        AuthorizeLeaves(l, c);
        ExecuteLeaves(l, c.run, c.step, MachineRan(MachineActionOf(c), c.cap), c.fate);
        if FindByStep(l.approvals, c.step).Some? {
          NothingLeft(l, WaitingOn(FindByStep(l.approvals, c.step).value), c.run, c.step, c.fate, true);
        }
      }
    }
  }

  /** The row of a step that keeps its action from the body for good. */
  ghost predicate Blocked(l: Ledger, step: string, digest: Digest<Preimage>) {
    || (exists i | 0 <= i < |l.approvals| :: l.approvals[i].step == step && l.approvals[i].digest != digest)
    || HasDecision(l.approvals, step, digest, Rejected)
  }

  /** Which standing a row gives an action, with one row for each step. */
  lemma StandingByRow(l: Ledger, step: string, digest: Digest<Preimage>)
    requires Inv(l)
    ensures
      var standing := StandingOf(l.approvals, step, digest);
      && (standing.StillPending? <==> HasDecision(l.approvals, step, digest, Pending))
      && (standing.Mismatch? || standing.WasRejected? <==> Blocked(l, step, digest))
      && (standing.Cleared? <==> HasDecision(l.approvals, step, digest, Approved))
      && (standing.Absent? <==> !HasRow(l.approvals, step))
  {
    StandingExactly(l, step, digest);
  }

  /** Exactly when a machine call is refused, in every reachable state: the action
      cannot be built, its row is for another action or rejected, or it has no row and
      its class is prohibited. */
  lemma MachineRefusedExactly(l: Ledger, c: MachineCall)
    requires Reachable(l) && c.step in l.steps && l.steps[c.step] != StepSucceeded
    ensures
      RunMachine(l, c).1.Refused?
      <==> && c.fate != DiesBeforeCommit
           && (|| !CanBuild(c)
               || Blocked(l, c.step, DigestOf(MachineActionOf(c)))
               || (!HasRow(l.approvals, c.step) && c.cap.risk == R3))
  {
    ReachableKeepsInv(l);
    GuardExactly(c.cap, [c.cap.ref], None);
    if CanBuild(c) { MachineRefusedIn(l, c); }
    hide Evaluate, Inv, Reachable, Blocked, HasRow;
  }

  lemma MachineRefusedIn(l: Ledger, c: MachineCall)
    requires Inv(l) && c.step in l.steps && l.steps[c.step] != StepSucceeded && CanBuild(c)
    ensures
      RunMachine(l, c).1.Refused?
      <==> && c.fate != DiesBeforeCommit
           && (Blocked(l, c.step, DigestOf(MachineActionOf(c))) || (!HasRow(l.approvals, c.step) && c.cap.risk == R3))
  {
    var digest := DigestOf(MachineActionOf(c));
    StandingByRow(l, c.step, digest);
    GuardExactly(c.cap, [c.cap.ref], None);
    match StandingOf(l.approvals, c.step, digest)
    case Cleared(_) =>
      ClearedFacts(l, c.step, MachineActionOf(c));
      FindsTheRow(l, c.step, digest);
      hide Inv, Evaluate, Blocked, HasRow, DigestOf, OperatorCleared;
    case Absent =>
      if l.steps[c.step] == StepWaiting { WaitingHasRow(l, c.step); }
      hide Inv, Evaluate, Blocked, DigestOf;
    case _ =>
      hide Inv, Evaluate, Blocked, HasRow, DigestOf;
  }

  lemma FindsTheRow(l: Ledger, step: string, digest: Digest<Preimage>)
    requires Inv(l) && HasDecision(l.approvals, step, digest, Approved)
    ensures FindByStep(l.approvals, step).Some?
    ensures l.approvals[FindByStep(l.approvals, step).value].digest == digest
    ensures !Blocked(l, step, digest)
  {
  }

  // --------------------------------------------------------------- agent nodes

  ghost predicate AgentParked(l: Ledger, l': Ledger, outcome: Outcome, c: AgentCall) {
    outcome.WaitingOn? ==>
      && c.cap.Some?
      && Parked(l, l', outcome.id, c.run, c.step, DigestOf(AgentActionOf(c)), Some(c.cap.value.risk))
  }

  /** Only a denial by the guard is recorded. */
  predicate RefusalRecorded(l: Ledger, l': Ledger, outcome: Outcome, step: string) {
    outcome.Refused? ==> if outcome.why == PolicyDenied then StepIs(l', step, StepFailed) else l' == l
  }

  lemma AuthorizeAgentLeaves(l: Ledger, c: AgentCall)
    requires c.cap.Some? && c.step in l.steps
    ensures
      var (l', outcome) := AuthorizeAgent(l, c);
      && Left(l, l', outcome, c.run, c.step, c.fate, false) && AgentParked(l, l', outcome, c)
      && RefusalRecorded(l, l', outcome, c.step) && !outcome.NoStep? && !outcome.Cached?
  {
    hide DigestOf, Evaluate, Execute, RequestApproval;
    var a := AgentActionOf(c);
    match Evaluate(c.cap.value, AllowlistOf(c), c.role)
    case UnknownRole => NothingLeft(l, Refused(BadRole), c.run, c.step, c.fate, false);
    case Decision(Deny) =>
    case Decision(Allow) =>
      ExecuteLeaves(l, c.run, c.step, GrantedEntry(c), c.fate);
      hide Left;
    case Decision(ApprovalRequired) =>
      RequestLeaves(l, c.run, c.step, DigestOf(a), Some(a.risk), c.fate, false);
      if c.fate == DiesBeforeCommit { NothingLeft(l, Died, c.run, c.step, c.fate, false); }
      hide Left;
  }

  /** What every agent call leaves, by what it answers. */
  lemma AgentLeaves(l: Ledger, c: AgentCall)
    ensures
      var (l', outcome) := RunAgent(l, c);
      && Left(l, l', outcome, c.run, c.step, c.fate, false) && AgentParked(l, l', outcome, c)
      && RefusalRecorded(l, l', outcome, c.step)
      && (outcome.NoStep? <==> c.step !in l.steps) && (outcome.Cached? <==> StepIs(l, c.step, StepSucceeded))
      && (outcome.NoStep? || outcome.Cached? ==> l' == l)
  {
    hide DigestOf, Left, Execute, AuthorizeAgent;
    NothingLeft(l, NoStep, c.run, c.step, c.fate, false);
    NothingLeft(l, Cached, c.run, c.step, c.fate, false);
    NothingLeft(l, Refused(DigestMismatch), c.run, c.step, c.fate, false);
    NothingLeft(l, Refused(ApprovalRejected), c.run, c.step, c.fate, false);
    if c.step in l.steps {
      ExecuteLeaves(l, c.run, c.step, AgentRan(c.step, None), c.fate);
      if c.cap.Some? {
        AuthorizeAgentLeaves(l, c);
        ExecuteLeaves(l, c.run, c.step, GrantedEntry(c), c.fate);
        if FindByStep(l.approvals, c.step).Some? {
          NothingLeft(l, WaitingOn(FindByStep(l.approvals, c.step).value), c.run, c.step, c.fate, false);
        }
      }
    }
  }

  /** The guard has nothing that would let the call through, or ask for it. */
  predicate Hopeless(c: AgentCall, cap: Capability) {
    var listed := c.allowlist.Some? ==> cap.ref in c.allowlist.value;
    if listed && !KnownRole(c.role) then true
    else c.fate != DiesBeforeCommit && (!listed || !RoleMay(c.role, cap.operation, cap.risk) || cap.risk == R3)
  }

  /** Exactly when an agent call is refused, in every reachable state: it has a
      capability, and its row is for another action or rejected, or it has no row and
      list, role or class stand in the way. */
  lemma AgentRefusedExactly(l: Ledger, c: AgentCall)
    requires Reachable(l) && c.step in l.steps && l.steps[c.step] != StepSucceeded
    ensures
      RunAgent(l, c).1.Refused?
      <==> && c.cap.Some?
           && (|| Blocked(l, c.step, DigestOf(AgentActionOf(c)))
               || (!HasRow(l.approvals, c.step) && Hopeless(c, c.cap.value)))
  {
    ReachableKeepsInv(l);
    hide Reachable;
    if c.cap.Some? { AgentRefusedIn(l, c); }
  }

  lemma AgentRefusedIn(l: Ledger, c: AgentCall)
    requires Inv(l) && c.step in l.steps && l.steps[c.step] != StepSucceeded && c.cap.Some?
    ensures
      RunAgent(l, c).1.Refused?
      <==> Blocked(l, c.step, DigestOf(AgentActionOf(c)))
           || (!HasRow(l.approvals, c.step) && Hopeless(c, c.cap.value))
  {
    hide Inv, Evaluate, Blocked, HasRow, HasDecision, DigestOf, BuildAgentAction, RoleMay, KnownRole;
    var digest := DigestOf(AgentActionOf(c));
    StandingByRow(l, c.step, digest);
    GuardExactly(c.cap.value, AllowlistOf(c), c.role);
    if StandingOf(l.approvals, c.step, digest).Cleared? { FindsTheRow(l, c.step, digest); }
  }

  // ------------------------------------------------------------ approval nodes

  ghost predicate RowIs(l: Ledger, step: string, status: Status) {
    exists i | 0 <= i < |l.approvals| :: l.approvals[i].step == step && l.approvals[i].status == status
  }

  /** What every approval node answers and leaves, in every reachable state, by its
      step's row: none and a new one is requested, pending and it waits, rejected and
      the step is FAILED, approved and it is SUCCEEDED. */
  lemma GateOutcomes(l: Ledger, c: GateCall)
    requires Reachable(l) && c.step in l.steps && l.steps[c.step] != StepSucceeded
    ensures
      var (l', outcome) := RunGate(l, c);
      && (outcome.WaitingOn? && l' != l <==> !HasRow(l.approvals, c.step) && !c.dies)
      && (outcome.WaitingOn? && l' != l ==>
            Parked(l, l', outcome.id, c.run, c.step, GateDigest(c.run, c.node, c.action), c.risk))
      && (outcome.WaitingOn? && l' == l <==> RowIs(l, c.step, Pending))
      && (outcome.Refused? <==> RowIs(l, c.step, Rejected) && !c.dies)
      && (outcome.Refused? ==> l' == l.(steps := l.steps[c.step := StepFailed]))
      && (outcome.Passed? <==> MayPassGate(l, c))
      && (outcome.Passed? ==>
            && outcome.id < |l.approvals| && l.approvals[outcome.id].step == c.step
            && l' == l.(steps := l.steps[c.step := StepSucceeded], log := l.log + [GatePassed(c.step, outcome.id)]))
      && (outcome.Died? ==> l' == l)
  {
    ReachableKeepsInv(l);
    hide Reachable;
    match FindByStep(l.approvals, c.step)
    case None =>
      assert |RunGate(l, c).0.approvals| > |l.approvals| || c.dies;
    case Some(i) =>
      NeverExpired(l, i);
      forall k | 0 <= k < |l.approvals| && l.approvals[k].step == c.step ensures k == i {
        FindIsUnique(l.approvals, c.step, k);
      }
      hide Inv;
  }

  // ---------------------------------------------------------- finished for good

  /** Nobody purges the step or writes its status from elsewhere. */
  predicate LeavesAlone(op: Op, step: string) {
    match op
    case PurgeSteps(purged) => step !in purged
    case OtherWriter(other, _) => other != step
    case _ => true
  }

  /** The step is still SUCCEEDED, and no body of it was started. */
  ghost predicate StillDone(l: Ledger, l': Ledger, step: string) {
    && StepIs(l', step, StepSucceeded) && l.log <= l'.log
    && forall i | |l.log| <= i < |l'.log| :: l'.log[i].Step() != step
  }

  lemma WorkerKeepsDone(l: Ledger, l': Ledger, run: string, at: string, step: string)
    requires StepIs(l, step, StepSucceeded) && WorkerShape(l, l', at)
    requires if at == step then l' == l else OnlyTouches(l, l', run, at)
    ensures StillDone(l, l', step)
  {
  }

  lemma GateTouches(l: Ledger, c: GateCall)
    ensures OnlyTouches(l, RunGate(l, c).0, c.run, c.step)
    ensures StepIs(l, c.step, StepSucceeded) ==> RunGate(l, c) == (l, Cached)
  {
  }

  lemma OthersKeepDone(l: Ledger, op: Op, step: string)
    requires StepIs(l, step, StepSucceeded) && LeavesAlone(op, step) && !op.Machine? && !op.Agent? && !op.Gate?
    ensures StillDone(l, Apply(l, op), step)
  {
    hide Approve, Reject;
  }

  lemma SucceededStep(l: Ledger, op: Op, step: string)
    requires StepIs(l, step, StepSucceeded) && LeavesAlone(op, step)
    ensures StillDone(l, Apply(l, op), step)
  {
    hide StillDone, WorkerShape, OnlyTouches, RunMachine, RunAgent, RunGate, Approve, Purge;
    match op
    case Machine(c) =>
      MachineLeaves(l, c);
      MachineShape(l, c);
      WorkerKeepsDone(l, RunMachine(l, c).0, c.run, c.step, step);
    case Agent(c) =>
      AgentLeaves(l, c);
      AgentShape(l, c);
      WorkerKeepsDone(l, RunAgent(l, c).0, c.run, c.step, step);
    case Gate(c) =>
      GateTouches(l, c);
      GateShape(l, c);
      WorkerKeepsDone(l, RunGate(l, c).0, c.run, c.step, step);
    case _ => OthersKeepDone(l, op, step);
  }

  /** A completed body is never repeated: once a step is SUCCEEDED, no history that
      neither purges it nor writes it from elsewhere starts a body of that step again,
      through any executor, whatever crashes and is decided meanwhile. */
  lemma {:induction false} SucceededForGood(l: Ledger, later: seq<Op>, step: string)
    requires StepIs(l, step, StepSucceeded) && forall i | 0 <= i < |later| :: LeavesAlone(later[i], step)
    ensures StillDone(l, Run(l, later), step)
    decreases |later|
  {
    if later != [] {
      hide Apply, LeavesAlone;
      var next := Apply(l, later[0]);
      SucceededStep(l, later[0], step);
      assert forall i | 0 <= i < |later[1..]| :: later[1..][i] == later[i + 1];
      SucceededForGood(next, later[1..], step);
      var now := Run(l, later);
      forall i | |l.log| <= i < |now.log| ensures now.log[i].Step() != step {
        if i < |next.log| { assert now.log[i] == next.log[i]; }
      }
    }
  }

  /** A step with an approval row is never deleted: the row's foreign key stands in
      the way, in every history. */
  lemma {:induction false} RowKeepsItsStep(l: Ledger, later: seq<Op>, step: string)
    requires Inv(l) && HasRow(l.approvals, step) && step in l.steps
    ensures step in Run(l, later).steps
    decreases |later|
  {
    if later != [] {
      hide Inv;
      ApplyKeeps(l, later[0]);
      RowStays(l.approvals, Apply(l, later[0]).approvals, step);
      StepStays(l, later[0], step);
      RowKeepsItsStep(Apply(l, later[0]), later[1..], step);
    }
  }

  lemma RowStays(before: seq<Row>, after: seq<Row>, step: string)
    requires Evolves(before, after) && HasRow(before, step)
    ensures HasRow(after, step)
  {
    var i :| 0 <= i < |before| && before[i].step == step;
    assert RowEvolves(before[i], after[i]);
  }

  lemma StepStays(l: Ledger, op: Op, step: string)
    requires HasRow(l.approvals, step) && step in l.steps
    ensures step in Apply(l, op).steps
  {
    hide RunMachine, RunAgent, RunGate, Approve, WorkerShape;
    match op
    case Machine(c) => WorkerKeepsKeys(l, RunMachine(l, c).0, c.step) by { MachineShape(l, c); }
    case Agent(c) => WorkerKeepsKeys(l, RunAgent(l, c).0, c.step) by { AgentShape(l, c); }
    case Gate(c) => WorkerKeepsKeys(l, RunGate(l, c).0, c.step) by { GateShape(l, c); }
    case PurgeSteps(purged) => var i :| 0 <= i < |l.approvals| && l.approvals[i].step == step;
    case _ =>
  }

  lemma WorkerKeepsKeys(l: Ledger, l': Ledger, at: string)
    requires WorkerShape(l, l', at)
    ensures l'.steps.Keys == l.steps.Keys
  {
  }

  // ------------------------------------------------------------ asked and cleared

  lemma {:induction false} ReachableRun(l: Ledger, ops: seq<Op>)
    requires Reachable(l)
    ensures Reachable(Run(l, ops))
    decreases |ops|
  {
    if ops != [] {
      ReachableStep(l, ops[0]);
      hide Reachable, Apply;
      ReachableRun(Apply(l, ops[0]), ops[1..]);
    }
  }

  lemma ApprovedStays(l: Ledger, ops: seq<Op>, id: nat)
    requires Inv(l) && id < |l.approvals| && id < |Run(l, ops).approvals|
    requires Run(l, ops).approvals[id].status == Approved
    ensures HasDecision(Run(l, ops).approvals, l.approvals[id].step, l.approvals[id].digest, Approved)
  {
    RunKeeps(l, ops);
    hide Run, Inv;
    assert RowEvolves(l.approvals[id], Run(l, ops).approvals[id]);
  }

  /** What an operator clears goes ahead: a machine call that was left waiting, and
      whose row has since been approved, starts its body when it is made again while
      the step still waits, whatever happened in between. */
  lemma ApprovedMachineRuns(l: Ledger, c: MachineCall, later: seq<Op>, again: Fate)
    requires Reachable(l) && RunMachine(l, c).1.WaitingOn? && ReachesBody(again)
    requires
      var (asked, outcome) := RunMachine(l, c);
      var now := Run(asked, later);
      && outcome.id < |now.approvals| && now.approvals[outcome.id].status == Approved
      && StepIs(now, c.step, StepWaiting)
    ensures CanBuild(c)
    ensures
      var now := Run(RunMachine(l, c).0, later);
      RunMachine(now, c.(fate := again)).0.log == now.log + [MachineRan(MachineActionOf(c), c.cap)]
  {
    var (asked, outcome) := RunMachine(l, c);
    ReachableStep(l, Machine(c));
    ReachableKeepsInv(asked);
    ReachableRun(asked, later);
    MachineLeaves(l, c);
    hide RunMachine, Reachable, Inv, Run, Left, HasDecision, DigestOf;
    ApprovedStays(asked, later, outcome.id);
    var now := Run(asked, later);
    MachineBodyStartsExactly(now, c.(fate := again));
  }

  /** The same for an agent, whose step need not be waiting any more. */
  lemma ApprovedAgentRuns(l: Ledger, c: AgentCall, later: seq<Op>, again: Fate)
    requires Reachable(l) && RunAgent(l, c).1.WaitingOn? && ReachesBody(again)
    requires
      var (asked, outcome) := RunAgent(l, c);
      var now := Run(asked, later);
      && outcome.id < |now.approvals| && now.approvals[outcome.id].status == Approved
      && c.step in now.steps && now.steps[c.step] != StepSucceeded
    ensures
      var now := Run(RunAgent(l, c).0, later);
      RunAgent(now, c.(fate := again)).0.log == now.log + [StartedAgent(c)]
  {
    var (asked, outcome) := RunAgent(l, c);
    ReachableStep(l, Agent(c));
    ReachableKeepsInv(asked);
    ReachableRun(asked, later);
    AgentLeaves(l, c);
    hide RunAgent, Reachable, Inv, Run, Left, HasDecision, DigestOf;
    ApprovedStays(asked, later, outcome.id);
    var now := Run(asked, later);
    AgentBodyStartsExactly(now, c.(fate := again));
  }
}
