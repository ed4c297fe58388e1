/** The safety results about governed actions. */
module GovernedTheorems {
  import opened Base
  import opened ApprovalTable
  import opened CapabilityGuard
  import opened MachineAction
  import opened Governed
  import opened GovernedProofs

  predicate ReachesBody(fate: Fate) {
    fate == Completes || fate == BodyRaises || fate == DiesInBody
  }

  ghost predicate HasRow(rows: seq<Row>, step: string) {
    exists i | 0 <= i < |rows| :: rows[i].step == step
  }

  /** Some history leads here from an empty approvals table and an empty log. */
  ghost predicate Reachable(l: Ledger) {
    exists start: Ledger, ops: seq<Op> :: Fresh(start) && Run(start, ops) == l
  }

  lemma ReachableKeepsInv(l: Ledger)
    requires Reachable(l)
    ensures Inv(l)
  {
    var start, ops :| Fresh(start) && Run(start, ops) == l;
    RunKeeps(start, ops);
  }

  // ----------------------------------------------------- shape of a transition

  /** What any worker call on `step` may do: add one pending row, start one
      body of that step, and park only a step that had no row. */
  ghost predicate WorkerShape(l: Ledger, l': Ledger, step: string) {
    && (l'.approvals == l.approvals
        || (l.approvals < l'.approvals && |l'.approvals| == |l.approvals| + 1
            && l'.approvals[|l.approvals|].status == Pending))
    && l'.steps.Keys == l.steps.Keys
    && (forall s | s in l'.steps && l'.steps[s] == StepWaiting ::
          l.steps[s] == StepWaiting || FindByStep(l.approvals, s).None?)
    && l.log <= l'.log && |l'.log| <= |l.log| + 1
    && (|l'.log| > |l.log| ==> l'.log[|l.log|].Step() == step)
  }

  lemma UnchangedShape(l: Ledger, step: string)
    ensures WorkerShape(l, l, step)
  {
  }

  lemma ExecuteShape(l: Ledger, step: string, e: Executed, fate: Fate)
    requires e.Step() == step
    ensures WorkerShape(l, Execute(l, step, e, fate).0, step)
  {
  }

  lemma RequestShape(l: Ledger, run: string, step: string, digest: Digest<Preimage>, risk: Option<Risk>)
    requires FindByStep(l.approvals, step).None?
    ensures WorkerShape(l, RequestApproval(l, run, step, digest, risk), step)
  {
  }

  lemma MarkFailedShape(l: Ledger, run: string, step: string, fate: Fate, why: Refusal)
    ensures WorkerShape(l, MarkFailed(l, run, step, fate, why).0, step)
  {
  }

  lemma AuthorizeShape(l: Ledger, c: MachineCall)
    requires CanBuild(c)
    ensures WorkerShape(l, AuthorizeAndRun(l, c).0, c.step)
  {
    var a := MachineActionOf(c);
    ExecuteShape(l, c.step, MachineRan(a, c.cap), c.fate);
    MarkFailedShape(l, c.run, c.step, c.fate, BadRole);
    MarkFailedShape(l, c.run, c.step, c.fate, PolicyDenied);
    MarkFailedShape(l, c.run, c.step, c.fate, DigestMismatch);
    if FindByStep(l.approvals, c.step).None? { RequestShape(l, c.run, c.step, DigestOf(a), Some(a.risk)); }
  }

  lemma MachineShape(l: Ledger, c: MachineCall)
    ensures WorkerShape(l, RunMachine(l, c).0, c.step)
  {
    hide WorkerShape;
    UnchangedShape(l, c.step);
    MarkFailedShape(l, c.run, c.step, c.fate, BuildFailed);
    MarkFailedShape(l, c.run, c.step, c.fate, DigestMismatch);
    MarkFailedShape(l, c.run, c.step, c.fate, ApprovalRejected);
    if CanBuild(c) {
      ExecuteShape(l, c.step, MachineRan(MachineActionOf(c), c.cap), c.fate);
      AuthorizeShape(l, c);
    }
  }

  lemma AuthorizeAgentShape(l: Ledger, c: AgentCall)
    requires c.cap.Some? && FindByStep(l.approvals, c.step).None?
    ensures WorkerShape(l, AuthorizeAgent(l, c).0, c.step)
  {
    UnchangedShape(l, c.step);
    match Evaluate(c.cap.value, AllowlistOf(c), c.role)
    case UnknownRole =>
    case Decision(Deny) =>
    case Decision(Allow) => ExecuteShape(l, c.step, GrantedEntry(c), c.fate);
    case Decision(ApprovalRequired) =>
      var a := AgentActionOf(c);
      RequestShape(l, c.run, c.step, DigestOf(a), Some(a.risk));
  }

  lemma AgentShape(l: Ledger, c: AgentCall)
    ensures WorkerShape(l, RunAgent(l, c).0, c.step)
  {
    hide WorkerShape;
    UnchangedShape(l, c.step);
    if c.step !in l.steps || l.steps[c.step] == StepSucceeded {
    } else if c.cap.None? {
      ExecuteShape(l, c.step, AgentRan(c.step, None), c.fate);
    } else {
      match StandingOf(l.approvals, c.step, DigestOf(AgentActionOf(c)))
      case Cleared(_) => ExecuteShape(l, c.step, GrantedEntry(c), c.fate);
      case Absent => AuthorizeAgentShape(l, c);
      case _ =>
    }
  }

  lemma GateShape(l: Ledger, c: GateCall)
    ensures WorkerShape(l, RunGate(l, c).0, c.step)
  {
    if FindByStep(l.approvals, c.step).None? {
      RequestShape(l, c.run, c.step, GateDigest(c.run, c.node, c.action), c.risk);
    }
  }

  // ------------------------------------------------- when exactly a body starts

  lemma StandingExactly(l: Ledger, step: string, digest: Digest<Preimage>)
    requires Inv(l)
    ensures StandingOf(l.approvals, step, digest).Cleared? <==> HasDecision(l.approvals, step, digest, Approved)
    ensures StandingOf(l.approvals, step, digest).Absent? <==> !HasRow(l.approvals, step)
  {
  }

  /** An action an operator had to clear is never one the guard lets through. */
  lemma OperatorRowNeedsOperator(l: Ledger, c: MachineCall)
    requires Inv(l) && CanBuild(c) && HasDecision(l.approvals, c.step, DigestOf(MachineActionOf(c)), Approved)
    ensures !NeedsNobody(c.cap)
  {
    var a := MachineActionOf(c);
    var i :| 0 <= i < |l.approvals| && l.approvals[i].step == c.step && l.approvals[i].digest == DigestOf(a)
             && l.approvals[i].status == Approved;
    assert BoundRow(l.approvals[i]);
    var b :| RequestedFor(l.approvals[i], b);
    DigestIdentifiesAction(a, b);
  }

  /** Exactly when a machine call starts the body, in every reachable state: the
      step waits and its row approves this very action, or it does not wait, it
      has no row, and the guard allows the capability. */
  lemma MachineBodyStartsExactly(l: Ledger, c: MachineCall)
    requires Reachable(l)
    ensures
      RunMachine(l, c).0.log != l.log <==> MayStartMachine(l, c)
    ensures RunMachine(l, c).0.log != l.log ==> StartsMachineBody(l, RunMachine(l, c).0, c)
  {
    ReachableKeepsInv(l);
    MachineStartsIn(l, c);
  }

  ghost predicate StartsMachineBody(l: Ledger, l': Ledger, c: MachineCall) {
    CanBuild(c) && l'.log == l.log + [MachineRan(MachineActionOf(c), c.cap)]
  }

  lemma AuthorizeStarts(l: Ledger, c: MachineCall)
    requires CanBuild(c)
    ensures if ReachesBody(c.fate) && NeedsNobody(c.cap)
            then StartsMachineBody(l, AuthorizeAndRun(l, c).0, c)
            else AuthorizeAndRun(l, c).0.log == l.log
  {
    GuardExactly(c.cap, [c.cap.ref], None);
    hide Evaluate, NeedsNobody;
  }

  ghost predicate MayStartMachine(l: Ledger, c: MachineCall) {
    && c.step in l.steps && CanBuild(c) && ReachesBody(c.fate)
    && if l.steps[c.step] == StepWaiting
       then HasDecision(l.approvals, c.step, DigestOf(MachineActionOf(c)), Approved)
       else l.steps[c.step] != StepSucceeded && !HasRow(l.approvals, c.step) && NeedsNobody(c.cap)
  }

  lemma ExecuteStarts(l: Ledger, step: string, e: Executed, fate: Fate)
    ensures Execute(l, step, e, fate).0.log == if ReachesBody(fate) then l.log + [e] else l.log
  {
  }

  lemma MachineStartsIn(l: Ledger, c: MachineCall)
    requires Inv(l)
    ensures RunMachine(l, c).0.log != l.log <==> MayStartMachine(l, c)
    ensures RunMachine(l, c).0.log != l.log ==> StartsMachineBody(l, RunMachine(l, c).0, c)
  {
    hide Inv;
    if c.step in l.steps && l.steps[c.step] != StepSucceeded && CanBuild(c) {
      var digest := DigestOf(MachineActionOf(c));
      StandingExactly(l, c.step, digest);
      match StandingOf(l.approvals, c.step, digest)
      case Cleared(_) =>
        OperatorRowNeedsOperator(l, c);
        AuthorizeStarts(l, c);
        ExecuteStarts(l, c.step, MachineRan(MachineActionOf(c), c.cap), c.fate);
      case Absent =>
        AuthorizeStarts(l, c);
        if l.steps[c.step] == StepWaiting { WaitingHasRow(l, c.step); }
      case _ =>
    }
  }

  /** An approved row of the step that was requested for this action and no other. */
  ghost predicate OperatorCleared(rows: seq<Row>, step: string, a: Action) {
    exists k | 0 <= k < |rows| ::
      && rows[k].step == step && rows[k].status == Approved
      && forall b: Action :: DigestOf(b) == rows[k].digest <==> b == a
  }

  /** What is known of an action with an approved row. */
  lemma ClearedFacts(l: Ledger, step: string, a: Action)
    requires Inv(l) && HasDecision(l.approvals, step, DigestOf(a), Approved)
    ensures OperatorCleared(l.approvals, step, a)
    ensures a.risk != R3 && a.risk != R0 && a.approval != "never" && (a.kind == AGENT_NODE ==> AgentMay(a))
  {
    var k :| 0 <= k < |l.approvals| && l.approvals[k].step == step && l.approvals[k].digest == DigestOf(a)
             && l.approvals[k].status == Approved;
    assert BoundRow(l.approvals[k]);
    var b :| RequestedFor(l.approvals[k], b);
    DigestIdentifiesAction(a, b);
    forall b: Action ensures DigestOf(b) == l.approvals[k].digest <==> b == a {
      DigestIdentifiesAction(a, b);
    }
  }

  /** Governed-action safety over whole histories: whatever crashed, was decided
      or was re-run with other arguments, every machine body that ever started
      needed nobody or stands under an approved row for its step, requested for no
      other action; none was of a prohibited class, and the action is one of its
      capability. */
  lemma MachineSafety(l: Ledger, i: nat)
    requires Reachable(l) && i < |l.log| && l.log[i].MachineRan?
    ensures
      var (a, cap) := (l.log[i].action, l.log[i].cap);
      && cap.risk != R3 && Names(a, cap)
      && (NeedsNobody(cap) || OperatorCleared(l.approvals, a.step, a))
  {
    ReachableKeepsInv(l);
    var (a, cap) := (l.log[i].action, l.log[i].cap);
    assert Justified(l.approvals, l.log[i]) && WellNamed(l.log[i]);
    GuardExactly(cap, [cap.ref], None);
    hide Evaluate, Inv, OperatorCleared;
    if !NeedsNobody(cap) { ClearedFacts(l, a.step, a); }
  }

  lemma SameRole(a: Action, role: Option<string>)
    requires AgentMay(a) && "role" in a.target && a.target["role"] == RoleMember(role)
    ensures KnownRole(role) && RoleMay(role, a.operation, a.risk)
  {
    var r :| KnownRole(r) && "role" in a.target && a.target["role"] == RoleMember(r) && RoleMay(r, a.operation, a.risk);
    assert r == role;
  }

  /** The same for agents that run under a capability: over every history, none ran
      with a prohibited class or an unknown role, no adversary changed anything, no
      verifier anything above R0, and the capability was on the node's allowlist and
      needed nobody, unless an operator had cleared this very action. */
  lemma AgentSafety(l: Ledger, i: nat)
    requires Reachable(l) && i < |l.log| && l.log[i].AgentRan? && l.log[i].grant.Some?
    ensures
      var g := l.log[i].grant.value;
      && g.cap.risk != R3 && KnownRole(g.role) && RoleMay(g.role, g.cap.operation, g.cap.risk)
      && Names(g.action, g.cap)
      && ((g.cap.ref in g.allowlist && NeedsNobody(g.cap))
          || OperatorCleared(l.approvals, l.log[i].agentStep, g.action))
  {
    ReachableKeepsInv(l);
    var g := l.log[i].grant.value;
    assert Justified(l.approvals, l.log[i]) && WellNamed(l.log[i]);
    GuardExactly(g.cap, g.allowlist, g.role);
    hide Evaluate, Inv, OperatorCleared, KnownRole, RoleMay;
    if !(g.cap.ref in g.allowlist && NeedsNobody(g.cap) && KnownRole(g.role)
         && RoleMay(g.role, g.cap.operation, g.cap.risk)) {
      ClearedFacts(l, l.log[i].agentStep, g.action);
      SameRole(g.action, g.role);
    }
  }

  // --------------------------------------------------- one decision, for ever

  /** Over every history each step has at most one approval row; a row keeps its
      step, digest and risk class; its status moves once, never to expired. */
  lemma OneDecisionForEver(l: Ledger, later: seq<Op>)
    requires Reachable(l)
    ensures OneDecisionPerStep(l.approvals) && OneDecisionPerStep(Run(l, later).approvals)
    ensures Evolves(l.approvals, Run(l, later).approvals)
  {
    ReachableKeepsInv(l);
    RunKeeps(l, later);
  }

  ghost predicate IsRejected(rows: seq<Row>, step: string) {
    exists i | 0 <= i < |rows| :: rows[i].step == step && rows[i].status == Rejected
  }

  /** The one way round a rejection: an agent node run without a capability. */
  predicate Ungoverned(e: Executed) {
    e.AgentRan? && e.grant.None?
  }

  ghost predicate OnlyUngovernedSince(l: Ledger, l': Ledger, step: string) {
    l.log <= l'.log && forall i | |l.log| <= i < |l'.log| :: l'.log[i].Step() == step ==> Ungoverned(l'.log[i])
  }

  lemma MachineAfterRejection(l: Ledger, c: MachineCall, step: string)
    requires Inv(l) && IsRejected(l.approvals, step)
    ensures OnlyUngovernedSince(l, RunMachine(l, c).0, step)
  {
    RejectedRow(l, step);
    MachineShape(l, c);
    MachineStartsIn(l, c);
  }

  lemma AgentAfterRejection(l: Ledger, c: AgentCall, step: string)
    requires Inv(l) && IsRejected(l.approvals, step)
    ensures OnlyUngovernedSince(l, RunAgent(l, c).0, step)
  {
    hide Inv, RunAgent;
    RejectedRow(l, step);
    AgentShape(l, c);
    AgentStartsIn(l, c);
  }

  lemma GateAfterRejection(l: Ledger, c: GateCall, step: string)
    requires Inv(l) && IsRejected(l.approvals, step)
    ensures OnlyUngovernedSince(l, RunGate(l, c).0, step)
  {
    RejectedRow(l, step);
    GateShape(l, c);
    GatePassesIn(l, c);
  }

  lemma RejectedRow(l: Ledger, step: string)
    requires Inv(l) && IsRejected(l.approvals, step)
    ensures HasRow(l.approvals, step)
    ensures forall i | 0 <= i < |l.approvals| && l.approvals[i].step == step :: l.approvals[i].status == Rejected
  {
  }

  lemma ApplyAfterRejection(l: Ledger, op: Op, step: string)
    requires Inv(l) && IsRejected(l.approvals, step)
    ensures IsRejected(Apply(l, op).approvals, step) && OnlyUngovernedSince(l, Apply(l, op), step)
  {
    ApplyKeeps(l, op);
    var i :| 0 <= i < |l.approvals| && l.approvals[i].step == step && l.approvals[i].status == Rejected;
    assert RowEvolves(l.approvals[i], Apply(l, op).approvals[i]);
    match op
    case Machine(c) => MachineAfterRejection(l, c, step);
    case Agent(c) => AgentAfterRejection(l, c, step);
    case Gate(c) => GateAfterRejection(l, c, step);
    case _ =>
  }

  lemma {:induction false} AfterRejection(l: Ledger, ops: seq<Op>, step: string)
    requires Inv(l) && IsRejected(l.approvals, step)
    ensures OnlyUngovernedSince(l, Run(l, ops), step)
    decreases |ops|
  {
    if ops != [] {
      var next := Apply(l, ops[0]);
      ApplyKeeps(l, ops[0]);
      ApplyAfterRejection(l, ops[0], step);
      AfterRejection(next, ops[1..], step);
      forall i | |l.log| <= i < |Run(l, ops).log| && Run(l, ops).log[i].Step() == step
        ensures Ungoverned(Run(l, ops).log[i])
      {
        if i < |next.log| { assert Run(l, ops).log[i] == next.log[i]; }
      }
    }
  }

  /** After a rejection no governed body of that step ever starts again, in any
      later re-run, with any arguments and through any executor. */
  lemma RejectionIsFinal(l: Ledger, later: seq<Op>, step: string)
    requires Reachable(l) && IsRejected(l.approvals, step)
    ensures OnlyUngovernedSince(l, Run(l, later), step)
  {
    ReachableKeepsInv(l);
    AfterRejection(l, later, step);
  }

  ghost predicate MayStartAgent(l: Ledger, c: AgentCall) {
    && c.step in l.steps && l.steps[c.step] != StepSucceeded && ReachesBody(c.fate)
    && (|| c.cap.None?
        || HasDecision(l.approvals, c.step, DigestOf(AgentActionOf(c)), Approved)
        || (!HasRow(l.approvals, c.step) && ClearsItself(c, c.cap.value)))
  }

  /** Listed, where the node has a list, in a role that may, and in need of nobody. */
  predicate ClearsItself(c: AgentCall, cap: Capability) {
    && (c.allowlist.Some? ==> cap.ref in c.allowlist.value)
    && KnownRole(c.role) && RoleMay(c.role, cap.operation, cap.risk) && NeedsNobody(cap)
  }

  /** The body an agent call starts, under the grant it was given, if any. */
  function StartedAgent(c: AgentCall): Executed {
    if c.cap.None? then AgentRan(c.step, None) else GrantedEntry(c)
  }

  /** Exactly when an agent call starts its body, and which. The first disjunct is the gap:
      with no capability nothing is consulted, a rejected row included. */
  lemma AgentBodyStartsExactly(l: Ledger, c: AgentCall)
    requires Reachable(l)
    ensures RunAgent(l, c).0.log != l.log <==> MayStartAgent(l, c)
    ensures RunAgent(l, c).0.log != l.log ==> RunAgent(l, c).0.log == l.log + [StartedAgent(c)]
  {
    ReachableKeepsInv(l);
    AgentStartsIn(l, c);
  }

  lemma AgentStartsIn(l: Ledger, c: AgentCall)
    requires Inv(l)
    ensures RunAgent(l, c).0.log != l.log <==> MayStartAgent(l, c)
    ensures RunAgent(l, c).0.log != l.log ==> RunAgent(l, c).0.log == l.log + [StartedAgent(c)]
  {
    hide Inv, Evaluate, KnownRole, RoleMay, NeedsNobody, DigestOf, BuildAgentAction, HasRow, HasDecision;
    if c.cap.Some? {
      StandingExactly(l, c.step, DigestOf(AgentActionOf(c)));
      GuardExactly(c.cap.value, AllowlistOf(c), c.role);
    }
  }

  ghost predicate MayPassGate(l: Ledger, c: GateCall) {
    && c.step in l.steps && l.steps[c.step] != StepSucceeded && !c.dies
    && exists i | 0 <= i < |l.approvals| :: l.approvals[i].step == c.step && l.approvals[i].status == Approved
  }

  /** An approval node passes exactly when its step's row is approved, whatever
      action the node declares now: the digest is not compared again. */
  lemma GatePassesExactly(l: Ledger, c: GateCall)
    requires Reachable(l)
    ensures RunGate(l, c).0.log != l.log <==> MayPassGate(l, c)
  {
    ReachableKeepsInv(l);
    GatePassesIn(l, c);
  }

  lemma GatePassesIn(l: Ledger, c: GateCall)
    requires Inv(l)
    ensures RunGate(l, c).0.log != l.log <==> MayPassGate(l, c)
  {
    if i :| 0 <= i < |l.approvals| && l.approvals[i].step == c.step && l.approvals[i].status == Approved {
      FindIsUnique(l.approvals, c.step, i);
    }
    if RunGate(l, c).0.log != l.log {
      var i := FindByStep(l.approvals, c.step).value;
      assert l.approvals[i].status == Approved;
    }
  }

  // --------------------------------------------- approved, crashed, stuck

  /** The step has a row but is not waiting: nothing puts it back to
      WAITING_APPROVAL, since only a step without a row is ever parked. */
  ghost predicate Stuck(l: Ledger, step: string) {
    HasRow(l.approvals, step) && step in l.steps && l.steps[step] != StepWaiting
  }

  ghost predicate NoMachineBodySince(l: Ledger, l': Ledger, step: string) {
    l.log <= l'.log && forall i | |l.log| <= i < |l'.log| :: l'.log[i].Step() == step ==> !l'.log[i].MachineRan?
  }

  ghost predicate StillStuck(l: Ledger, l': Ledger, step: string) {
    step in l'.steps && l'.steps[step] != StepWaiting && NoMachineBodySince(l, l', step)
  }

  lemma MachineStillStuck(l: Ledger, c: MachineCall, step: string)
    requires Inv(l) && Stuck(l, step)
    ensures StillStuck(l, RunMachine(l, c).0, step)
  {
    MachineShape(l, c);
    MachineStartsIn(l, c);
  }

  lemma OtherWorkerStillStuck(l: Ledger, l': Ledger, at: string, step: string)
    requires Stuck(l, step) && WorkerShape(l, l', at)
    requires |l'.log| > |l.log| ==> at != step || !l'.log[|l.log|].MachineRan?
    ensures StillStuck(l, l', step)
  {
  }

  lemma StuckStays(l: Ledger, op: Op, step: string)
    requires Inv(l) && Stuck(l, step)
    ensures Stuck(Apply(l, op), step) && NoMachineBodySince(l, Apply(l, op), step)
  {
    ApplyKeeps(l, op);
    var i :| 0 <= i < |l.approvals| && l.approvals[i].step == step;
    assert RowEvolves(l.approvals[i], Apply(l, op).approvals[i]);
    match op
    case Machine(c) => MachineStillStuck(l, c, step);
    case Agent(c) =>
      AgentShape(l, c);
      AgentEntries(l, c);
      OtherWorkerStillStuck(l, RunAgent(l, c).0, c.step, step);
    case Gate(c) =>
      GateShape(l, c);
      GateEntries(l, c);
      OtherWorkerStillStuck(l, RunGate(l, c).0, c.step, step);
    case _ =>
  }

  lemma AgentEntries(l: Ledger, c: AgentCall)
    ensures RunAgent(l, c).0.log == l.log || (exists e: Executed :: e.AgentRan? && RunAgent(l, c).0.log == l.log + [e])
  {
  }

  lemma GateEntries(l: Ledger, c: GateCall)
    ensures RunGate(l, c).0.log == l.log || (exists id :: RunGate(l, c).0.log == l.log + [GatePassed(c.step, id)])
  {
  }

  lemma {:induction false} StuckForEver(l: Ledger, ops: seq<Op>, step: string)
    requires Inv(l) && Stuck(l, step)
    ensures NoMachineBodySince(l, Run(l, ops), step)
    decreases |ops|
  {
    if ops != [] {
      var next := Apply(l, ops[0]);
      ApplyKeeps(l, ops[0]);
      StuckStays(l, ops[0], step);
      StuckForEver(next, ops[1..], step);
      forall i | |l.log| <= i < |Run(l, ops).log| && Run(l, ops).log[i].Step() == step
        ensures !Run(l, ops).log[i].MachineRan?
      {
        if i < |next.log| { assert Run(l, ops).log[i] == next.log[i]; }
      }
    }
  }

  /** A machine step that was approved and then crashed while RUNNING (or was
      recorded FAILED) is sent back to waiting for ever: in no later history does
      its machine body start again, although its approval stands. */
  lemma ApprovedThenCrashedNeverRuns(l: Ledger, later: seq<Op>, step: string)
    requires Reachable(l) && step in l.steps && l.steps[step] != StepWaiting
    requires exists i | 0 <= i < |l.approvals| :: l.approvals[i].step == step && l.approvals[i].status == Approved
    ensures NoMachineBodySince(l, Run(l, later), step)
  {
    ReachableKeepsInv(l);
    StuckForEver(l, later, step);
  }

  // --------------------------------------------------------------- voice only

  predicate VoiceOnly(ops: seq<Op>) {
    forall i | 0 <= i < |ops| :: ops[i].OperatorApprove? ==> ops[i].channel == "voice"
  }

  /** Under voice-only operation an approved action row is never R2 or R3. */
  ghost predicate LowRiskApprovals(rows: seq<Row>) {
    forall i | 0 <= i < |rows| ::
      rows[i].status == Approved && rows[i].digest.preimage.OfAction? ==>
        rows[i].risk == Some(R0) || rows[i].risk == Some(R1)
  }

  lemma PendingRowKeepsLow(l: Ledger, l': Ledger, step: string)
    requires LowRiskApprovals(l.approvals) && WorkerShape(l, l', step)
    ensures LowRiskApprovals(l'.approvals)
  {
  }

  lemma VoiceApprovalKeepsLow(l: Ledger, id: nat, claimed: Option<string>)
    requires Inv(l) && LowRiskApprovals(l.approvals)
    ensures LowRiskApprovals(Approve(l.approvals, id, "voice", claimed).0)
  {
  }

  lemma VoiceKeepsLow(l: Ledger, op: Op)
    requires Inv(l) && LowRiskApprovals(l.approvals)
    requires op.OperatorApprove? ==> op.channel == "voice"
    ensures LowRiskApprovals(Apply(l, op).approvals)
  {
    match op
    case Machine(c) =>
      MachineShape(l, c);
      PendingRowKeepsLow(l, RunMachine(l, c).0, c.step);
    case Agent(c) =>
      AgentShape(l, c);
      PendingRowKeepsLow(l, RunAgent(l, c).0, c.step);
    case Gate(c) =>
      GateShape(l, c);
      PendingRowKeepsLow(l, RunGate(l, c).0, c.step);
    case OperatorApprove(id, _, claimed) => VoiceApprovalKeepsLow(l, id, claimed);
    case _ =>
  }

  lemma {:induction false} VoiceRunKeepsLow(l: Ledger, ops: seq<Op>)
    requires Inv(l) && LowRiskApprovals(l.approvals) && VoiceOnly(ops)
    ensures LowRiskApprovals(Run(l, ops).approvals)
    decreases |ops|
  {
    if ops != [] {
      ApplyKeeps(l, ops[0]);
      VoiceKeepsLow(l, ops[0]);
      forall i | 0 <= i < |ops[1..]| ensures ops[1..][i].OperatorApprove? ==> ops[1..][i].channel == "voice" {
        assert ops[1..][i] == ops[i + 1];
      }
      VoiceRunKeepsLow(Apply(l, ops[0]), ops[1..]);
    }
  }

  lemma ClearedIsLow(l: Ledger, step: string, a: Action)
    requires Inv(l) && LowRiskApprovals(l.approvals) && OperatorCleared(l.approvals, step, a)
    ensures a.risk == R0 || a.risk == R1
  {
    var k :| 0 <= k < |l.approvals| && l.approvals[k].step == step && l.approvals[k].status == Approved
        && forall b: Action :: DigestOf(b) == l.approvals[k].digest <==> b == a;
    assert BoundRow(l.approvals[k]) && DigestOf(a) == l.approvals[k].digest;
    var b :| RequestedFor(l.approvals[k], b);
    DigestIdentifiesAction(a, b);
  }

  /** The capability a body ran under; approval nodes and agents without one have none. */
  function CapabilityOf(e: Executed): Option<Capability> {
    match e
    case MachineRan(_, cap) => Some(cap)
    case AgentRan(_, Some(g)) => Some(g.cap)
    case _ => None
  }

  /** When every approval the operator gives is given by voice, no R3 capability,
      and no R2 one whose approval is not `never`, is ever used, by machine nodes or
      agents. */
  lemma VoiceNeverRunsHighRisk(start: Ledger, ops: seq<Op>, i: nat)
    requires Fresh(start) && VoiceOnly(ops)
    requires i < |Run(start, ops).log| && CapabilityOf(Run(start, ops).log[i]).Some?
    ensures
      var cap := CapabilityOf(Run(start, ops).log[i]).value;
      cap.risk != R3 && (cap.risk == R2 ==> cap.approval == "never")
  {
    RunKeeps(start, ops);
    VoiceRunKeepsLow(start, ops);
    var l := Run(start, ops);
    assert Reachable(l);
    hide Reachable, Run, Inv, LowRiskApprovals, OperatorCleared, WellNamed;
    match l.log[i] {
      case MachineRan(a, cap) =>
        MachineSafety(l, i);
        if OperatorCleared(l.approvals, a.step, a) { ClearedIsLow(l, a.step, a); }
      case AgentRan(step, Some(g)) =>
        AgentSafety(l, i);
        if OperatorCleared(l.approvals, step, g.action) { ClearedIsLow(l, step, g.action); }
    }
  }

  // ----------------------------------------------------------- one more step

  lemma {:induction false} RunAppends(l: Ledger, ops: seq<Op>, op: Op)
    ensures Run(l, ops + [op]) == Apply(Run(l, ops), op)
    decreases |ops|
  {
    hide Apply;
    if ops == [] {
      assert Run(l, [op]) == Run(Apply(l, op), []);
    } else {
      assert (ops + [op])[1..] == ops[1..] + [op];
      RunAppends(Apply(l, ops[0]), ops[1..], op);
    }
  }

  lemma ReachableStep(l: Ledger, op: Op)
    requires Reachable(l)
    ensures Reachable(Apply(l, op))
  {
    hide Apply, Fresh;
    var start, ops :| Fresh(start) && Run(start, ops) == l;
    RunAppends(start, ops, op);
  }
}
