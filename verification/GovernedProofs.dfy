/** What every history of worker calls, crashes and operator decisions keeps. */
module GovernedProofs {
  import opened Base
  import opened ApprovalTable
  import opened CapabilityGuard
  import opened MachineAction
  import opened Governed

  /** Why a body was allowed to start. */
  ghost predicate Justified(approvals: seq<Row>, e: Executed) {
    match e
    case MachineRan(a, cap) => GuardAllows(cap) || HasDecision(approvals, a.step, DigestOf(a), Approved)
    case AgentRan(step, None) => true
    case AgentRan(step, Some(g)) =>
      Evaluate(g.cap, g.allowlist, g.role) == Decision(Allow)
      || HasDecision(approvals, step, DigestOf(g.action), Approved)
    case GatePassed(step, id) => id < |approvals| && approvals[id].step == step && approvals[id].status == Approved
  }

  /** A row over an action was requested for one that only an operator can
      clear, and stores that action's risk class. */
  ghost predicate BoundRow(r: Row) {
    r.digest.preimage.OfAction? ==> exists a: Action :: RequestedFor(r, a)
  }

  ghost predicate RequestedFor(r: Row, a: Action) {
    && r.digest == DigestOf(a) && r.risk == Some(a.risk) && r.step == a.step
    && a.risk != R3 && a.risk != R0 && a.approval != "never"
    && (a.kind == AGENT_NODE ==> AgentMay(a))
  }

  /** The role an agent action was built for is known and may do what it does. */
  ghost predicate AgentMay(a: Action) {
    exists role | KnownRole(role) ::
      "role" in a.target && a.target["role"] == RoleMember(role) && RoleMay(role, a.operation, a.risk)
  }

  ghost predicate Inv(l: Ledger) {
    && OneDecisionPerStep(l.approvals)
    && (forall s | s in l.steps && l.steps[s] == StepWaiting :: FindByStep(l.approvals, s).Some?)
    && (forall i | 0 <= i < |l.approvals| :: BoundRow(l.approvals[i]))
    && (forall i | 0 <= i < |l.log| :: Justified(l.approvals, l.log[i]))
    && (forall i | 0 <= i < |l.log| :: WellNamed(l.log[i]))
  }

  ghost predicate WellNamed(e: Executed) {
    match e
    case MachineRan(a, cap) => Names(a, cap)
    case AgentRan(step, Some(g)) =>
      && Names(g.action, g.cap) && g.action.step == step && g.action.kind == AGENT_NODE
      && "role" in g.action.target && g.action.target["role"] == RoleMember(g.role)
    case _ => true
  }

  predicate Names(a: Action, cap: Capability) {
    a.risk == cap.risk && a.approval == cap.approval && a.operation == cap.operation && a.capabilityRef == cap.ref
  }

  // -------------------------------------------------------------- preservation

  lemma JustifiedEvolves(before: seq<Row>, after: seq<Row>, e: Executed)
    requires Evolves(before, after) && Justified(before, e)
    ensures Justified(after, e)
  {
  }

  /** A ledger whose table evolved, whose log gained only a justified entry and
      whose waiting steps still have a row keeps the invariant. */
  lemma InvFrom(l: Ledger, l': Ledger)
    requires Inv(l) && Evolves(l.approvals, l'.approvals) && OneDecisionPerStep(l'.approvals)
    requires forall i | |l.approvals| <= i < |l'.approvals| :: BoundRow(l'.approvals[i])
    requires l.log <= l'.log
    requires forall i | |l.log| <= i < |l'.log| :: Justified(l'.approvals, l'.log[i]) && WellNamed(l'.log[i])
    requires forall s | s in l'.steps && l'.steps[s] == StepWaiting ::
               (s in l.steps && l.steps[s] == StepWaiting) || FindByStep(l'.approvals, s).Some?
    ensures Inv(l')
  {
    forall s | s in l'.steps && l'.steps[s] == StepWaiting ensures FindByStep(l'.approvals, s).Some? {
      if s in l.steps && l.steps[s] == StepWaiting {
        var i := FindByStep(l.approvals, s).value;
        assert RowEvolves(l.approvals[i], l'.approvals[i]);
      }
    }
    forall i | 0 <= i < |l'.approvals| ensures BoundRow(l'.approvals[i]) {
      if i < |l.approvals| {
        assert RowEvolves(l.approvals[i], l'.approvals[i]) && BoundRow(l.approvals[i]);
        if l.approvals[i].digest.preimage.OfAction? {
          var a :| RequestedFor(l.approvals[i], a);
          assert RequestedFor(l'.approvals[i], a);
        }
      }
    }
    forall i | 0 <= i < |l'.log| ensures Justified(l'.approvals, l'.log[i]) && WellNamed(l'.log[i]) {
      if i < |l.log| {
        assert l'.log[i] == l.log[i];
        JustifiedEvolves(l.approvals, l'.approvals, l.log[i]);
      }
    }
  }

  lemma RequestKeeps(l: Ledger, run: string, step: string, digest: Digest<Preimage>, risk: Option<Risk>)
    requires Inv(l) && FindByStep(l.approvals, step).None?
    requires BoundRow(Approval(step, digest, Pending, risk))
    ensures Inv(RequestApproval(l, run, step, digest, risk))
    ensures Evolves(l.approvals, RequestApproval(l, run, step, digest, risk).approvals)
  {
    var l' := RequestApproval(l, run, step, digest, risk);
    assert l'.approvals[|l.approvals|].step == step;
    InvFrom(l, l');
  }

  lemma ExecuteKeeps(l: Ledger, step: string, e: Executed, fate: Fate)
    requires Inv(l) && Justified(l.approvals, e) && WellNamed(e)
    ensures Inv(Execute(l, step, e, fate).0) && Execute(l, step, e, fate).0.approvals == l.approvals
  {
    TableIsSound(l);
    hide Inv, Justified, WellNamed, BoundRow, OneDecisionPerStep;
    InvFrom(l, Execute(l, step, e, fate).0);
  }

  lemma TableIsSound(l: Ledger)
    requires Inv(l)
    ensures OneDecisionPerStep(l.approvals)
  {
  }

  lemma DecideKeeps(l: Ledger, id: nat, status: Status)
    requires Inv(l) && (status == Approved || status == Rejected)
    ensures Inv(l.(approvals := Decide(l.approvals, id, status).0))
    ensures Evolves(l.approvals, Decide(l.approvals, id, status).0)
  {
    var l' := l.(approvals := Decide(l.approvals, id, status).0);
    forall i | 0 <= i < |l.approvals| ensures RowEvolves(l.approvals[i], l'.approvals[i]) { }
    InvFrom(l, l');
  }

  lemma ClearedIsApproved(l: Ledger, step: string, digest: Digest<Preimage>)
    requires Inv(l) && StandingOf(l.approvals, step, digest).Cleared?
    ensures HasDecision(l.approvals, step, digest, Approved)
  {
  }

  lemma NewRowBound(a: Action)
    requires a.risk != R3 && a.risk != R0 && a.approval != "never" && (a.kind == AGENT_NODE ==> AgentMay(a))
    ensures BoundRow(Approval(a.step, DigestOf(a), Pending, Some(a.risk)))
  {
    assert RequestedFor(Approval(a.step, DigestOf(a), Pending, Some(a.risk)), a);
  }

  lemma MarkFailedKeeps(l: Ledger, run: string, step: string, fate: Fate, why: Refusal)
    requires Inv(l)
    ensures Inv(MarkFailed(l, run, step, fate, why).0) && MarkFailed(l, run, step, fate, why).0.approvals == l.approvals
  {
  }

  lemma StepFailedKeeps(l: Ledger, step: string)
    requires Inv(l)
    ensures Inv(SetStep(l, step, StepFailed))
  {
  }

  /** A step that is WAITING_APPROVAL has an approval row: what makes it safe to
      skip the guard for such a step. */
  lemma WaitingHasRow(l: Ledger, step: string)
    requires Inv(l) && step in l.steps && l.steps[step] == StepWaiting
    ensures FindByStep(l.approvals, step).Some?
  {
  }

  lemma NotAnAgent(c: MachineCall)
    requires CanBuild(c)
    ensures MachineActionOf(c).kind != AGENT_NODE
  {
    assert AGENT_NODE[0] == 'a';
  }

  lemma AuthorizeKeeps(l: Ledger, c: MachineCall)
    requires Inv(l) && CanBuild(c)
    ensures Inv(AuthorizeAndRun(l, c).0) && Evolves(l.approvals, AuthorizeAndRun(l, c).0.approvals)
  {
    hide Inv;
    var a := MachineActionOf(c);
    match Evaluate(c.cap, [c.cap.ref], None)
    case UnknownRole => MarkFailedKeeps(l, c.run, c.step, c.fate, BadRole);
    case Decision(Deny) => MarkFailedKeeps(l, c.run, c.step, c.fate, PolicyDenied);
    case Decision(Allow) => ExecuteKeeps(l, c.step, MachineRan(a, c.cap), c.fate);
    case Decision(ApprovalRequired) =>
      if FindByStep(l.approvals, c.step).Some? {
        MarkFailedKeeps(l, c.run, c.step, c.fate, DigestMismatch);
      } else {
        NotAnAgent(c);
        NewRowBound(a);
        RequestKeeps(l, c.run, c.step, DigestOf(a), Some(a.risk));
      }
  }

  lemma MachineKeeps(l: Ledger, c: MachineCall)
    requires Inv(l)
    ensures Inv(RunMachine(l, c).0) && Evolves(l.approvals, RunMachine(l, c).0.approvals)
  {
    hide Inv;
    if c.step !in l.steps || l.steps[c.step] == StepSucceeded {
    } else if !CanBuild(c) {
      MarkFailedKeeps(l, c.run, c.step, c.fate, BuildFailed);
    } else {
      var a := MachineActionOf(c);
      match StandingOf(l.approvals, c.step, DigestOf(a))
      case Mismatch => MarkFailedKeeps(l, c.run, c.step, c.fate, DigestMismatch);
      case StillPending(_) =>
      case WasRejected(_) => MarkFailedKeeps(l, c.run, c.step, c.fate, ApprovalRejected);
      case Absent =>
        AuthorizeKeeps(l, c);
        if l.steps[c.step] == StepWaiting { WaitingHasRow(l, c.step); }
      case Cleared(_) =>
        AuthorizeKeeps(l, c);
        ClearedIsApproved(l, c.step, DigestOf(a));
        ExecuteKeeps(l, c.step, MachineRan(a, c.cap), c.fate);
    }
  }

  lemma AuthorizeAgentKeeps(l: Ledger, c: AgentCall)
    requires Inv(l) && c.cap.Some? && FindByStep(l.approvals, c.step).None?
    ensures Inv(AuthorizeAgent(l, c).0) && Evolves(l.approvals, AuthorizeAgent(l, c).0.approvals)
  {
    hide Inv;
    match Evaluate(c.cap.value, AllowlistOf(c), c.role)
    case UnknownRole =>
    case Decision(Deny) => StepFailedKeeps(l, c.step);
    case Decision(Allow) => ExecuteKeeps(l, c.step, GrantedEntry(c), c.fate);
    case Decision(ApprovalRequired) =>
      var a := AgentActionOf(c);
      GuardExactly(c.cap.value, AllowlistOf(c), c.role);
      assert AgentMay(a);
      NewRowBound(a);
      RequestKeeps(l, c.run, c.step, DigestOf(a), Some(a.risk));
  }

  lemma AgentKeeps(l: Ledger, c: AgentCall)
    requires Inv(l)
    ensures Inv(RunAgent(l, c).0) && Evolves(l.approvals, RunAgent(l, c).0.approvals)
  {
    hide Inv;
    if c.step !in l.steps || l.steps[c.step] == StepSucceeded {
    } else if c.cap.None? {
      ExecuteKeeps(l, c.step, AgentRan(c.step, None), c.fate);
    } else {
      match StandingOf(l.approvals, c.step, DigestOf(AgentActionOf(c)))
      case Cleared(_) =>
        ClearedIsApproved(l, c.step, DigestOf(AgentActionOf(c)));
        ExecuteKeeps(l, c.step, GrantedEntry(c), c.fate);
      case Absent => AuthorizeAgentKeeps(l, c);
      case _ =>
    }
  }

  lemma GatePassKeeps(l: Ledger, step: string, id: nat)
    requires Inv(l) && FindByStep(l.approvals, step) == Some(id) && l.approvals[id].status == Approved
    ensures Inv(SetStep(l, step, StepSucceeded).(log := l.log + [GatePassed(step, id)]))
  {
    InvFrom(l, SetStep(l, step, StepSucceeded).(log := l.log + [GatePassed(step, id)]));
  }

  lemma NeverExpired(l: Ledger, i: nat)
    requires Inv(l) && i < |l.approvals|
    ensures l.approvals[i].status != Expired
  {
  }

  lemma GateKeeps(l: Ledger, c: GateCall)
    requires Inv(l)
    ensures Inv(RunGate(l, c).0) && Evolves(l.approvals, RunGate(l, c).0.approvals)
  {
    hide Inv;
    match FindByStep(l.approvals, c.step)
    case None => RequestKeeps(l, c.run, c.step, GateDigest(c.run, c.node, c.action), c.risk);
    case Some(i) =>
      NeverExpired(l, i);
      StepFailedKeeps(l, c.step);
      if l.approvals[i].status == Approved { GatePassKeeps(l, c.step, i); }
  }

  lemma HousekeepingKeeps(l: Ledger, op: Op)
    requires Inv(l) && (op.CreateStep? || op.PurgeSteps? || op.OtherWriter?)
    ensures Inv(Apply(l, op)) && Apply(l, op).approvals == l.approvals
  {
    InvFrom(l, Apply(l, op));
  }

  /** Every transition keeps the invariant and only lets approvals evolve. */
  lemma ApplyKeeps(l: Ledger, op: Op)
    requires Inv(l)
    ensures Inv(Apply(l, op)) && Evolves(l.approvals, Apply(l, op).approvals)
  {
    hide Inv;
    match op
    case Machine(c) => MachineKeeps(l, c);
    case Agent(c) => AgentKeeps(l, c);
    case Gate(c) => GateKeeps(l, c);
    case OperatorApprove(id, channel, claimed) => DecideKeeps(l, id, Approved);
    case OperatorReject(id) => DecideKeeps(l, id, Rejected);
    case _ => HousekeepingKeeps(l, op);
  }

  lemma {:induction false} RunKeeps(l: Ledger, ops: seq<Op>)
    requires Inv(l)
    ensures Inv(Run(l, ops)) && Evolves(l.approvals, Run(l, ops).approvals)
    decreases |ops|
  {
    if ops != [] {
      ApplyKeeps(l, ops[0]);
      RunKeeps(Apply(l, ops[0]), ops[1..]);
      EvolvesTransitive(l.approvals, Apply(l, ops[0]).approvals, Run(l, ops).approvals);
    }
  }
}
