/** Governed actions: what each worker call does to the step, run and approval
    rows, and which bodies it runs (`machine/activities.py`,
    `machine/approvals.py`, `engine/agent_step.py`, `workflow/approval.py`,
    `ops/approval.py`).

    Every function below is one call; its `fate` says where, if anywhere, the
    process dies. Deaths are placed between commits, so a dying call leaves a
    prefix of its commits behind. */
module Governed {
  import opened Base
  import opened ApprovalTable
  import opened CapabilityGuard
  import opened MachineAction

  datatype StepStatus = StepPending | StepRunning | StepWaiting | StepSucceeded | StepFailed | StepOther
  datatype RunStatus = RunActive | RunWaiting | RunFailed | RunOther

  /** A body that was started. */
  datatype Executed =
    | MachineRan(action: Action, cap: Capability)
    | AgentRan(agentStep: string, grant: Option<AgentGrant>)
    | GatePassed(gateStep: string, approvalId: nat)
  {
    function Step(): string {
      match this
      case MachineRan(a, _) => a.step
      case AgentRan(s, _) => s
      case GatePassed(s, _) => s
    }
  }

  datatype AgentGrant = AgentGrant(action: Action, cap: Capability, allowlist: seq<string>, role: Option<string>)

  type Row = Approval<string, Preimage>

  datatype Ledger = Ledger(
    steps: map<string, StepStatus>, runs: map<string, RunStatus>, approvals: seq<Row>, log: seq<Executed>)

  /** Completes: the body returns. BodyRaises: it raises and the failure is
      recorded. The others die before the call's first commit, after RUNNING is
      committed, or once the body has started. */
  datatype Fate = Completes | BodyRaises | DiesBeforeCommit | DiesBeforeBody | DiesInBody

  datatype Refusal = DigestMismatch | ApprovalRejected | PolicyDenied | BuildFailed | BadRole
  datatype Outcome =
    | NoStep | Cached | WaitingOn(id: nat) | Refused(why: Refusal) | Ran | BodyFailed | Passed(id: nat) | Died

  datatype Build = Built(target: map<string, Json>, bodyDigest: Option<string>) | BuildRaises

  datatype MachineCall = MachineCall(
    kind: string, run: string, step: string, node: string, cap: Capability, build: Build, fate: Fate)

  datatype AgentCall = AgentCall(
    run: string, step: string, actor: string, role: Option<string>, cap: Option<Capability>,
    allowlist: Option<seq<string>>, objectiveDigest: string, fate: Fate)

  datatype GateCall = GateCall(run: string, step: string, node: string, action: string, risk: Option<Risk>, dies: bool)

  // ------------------------------------------------------------ shared pieces

  function SetStep(l: Ledger, step: string, status: StepStatus): Ledger {
    if step in l.steps then l.(steps := l.steps[step := status]) else l
  }

  function SetRun(l: Ledger, run: string, status: RunStatus): Ledger {
    if run in l.runs then l.(runs := l.runs[run := status]) else l
  }

  /** The single commit that inserts a pending approval and parks step and run. */
  function RequestApproval(l: Ledger, run: string, step: string, digest: Digest<Preimage>, risk: Option<Risk>): Ledger {
    var requested := l.(approvals := l.approvals + [Approval(step, digest, Pending, risk)]);
    SetRun(SetStep(requested, step, StepWaiting), run, RunWaiting)
  }

  /** `_mark_failed` unless the process dies first. */
  function MarkFailed(l: Ledger, run: string, step: string, fate: Fate, why: Refusal): (Ledger, Outcome) {
    if fate == DiesBeforeCommit then (l, Died)
    else (SetRun(SetStep(l, step, StepFailed), run, RunFailed), Refused(why))
  }

  /** RUNNING, body, SUCCEEDED or FAILED; a machine node that fails also fails its
      run (`_mark_failed`), an agent node leaves that to its caller. */
  function Execute(l: Ledger, step: string, entry: Executed, fate: Fate): (Ledger, Outcome) {
    var started := SetStep(l, step, StepRunning);
    var ran := started.(log := started.log + [entry]);
    match fate
    case DiesBeforeCommit => (l, Died)
    case DiesBeforeBody => (started, Died)
    case DiesInBody => (ran, Died)
    case BodyRaises =>
      var failed := SetStep(ran, step, StepFailed);
      (if entry.MachineRan? then SetRun(failed, entry.action.run, RunFailed) else failed, BodyFailed)
    case Completes => (SetStep(ran, step, StepSucceeded), Ran)
  }

  datatype Standing = Absent | Mismatch | StillPending(id: nat) | WasRejected(id: nat) | Cleared(id: nat)

  /** What the approval row of a step says about an action with this digest
      (`approved_or_waiting`, `_approval_status`). Any status other than pending
      or rejected counts as cleared. */
  function StandingOf(approvals: seq<Row>, step: string, digest: Digest<Preimage>): Standing {
    match FindByStep(approvals, step)
    case None => Absent
    case Some(i) =>
      if approvals[i].digest != digest then Mismatch
      else match approvals[i].status
        case Pending => StillPending(i)
        case Rejected => WasRejected(i)
        case _ => Cleared(i)
  }

  // ------------------------------------------------------------- machine nodes

  /** `_build_action` knows these kinds only, and refuses any other. */
  predicate IsMachineKind(kind: string) {
    "fs_" <= kind || kind == "command_run" || kind == "network_fetch"
  }

  predicate CanBuild(c: MachineCall) {
    c.build.Built? && IsMachineKind(c.kind)
  }

  function MachineActionOf(c: MachineCall): Action
    requires CanBuild(c)
  {
    BuildAction(c.kind, c.run, c.step, c.node, c.cap, c.build.target, c.build.bodyDigest)
  }

  predicate GuardAllows(cap: Capability) {
    Evaluate(cap, [cap.ref], None) == Decision(Allow)
  }

  /** `authorize_machine_action` followed, when it lets the action through, by
      the body. An approval row that is already there is only reported. */
  function AuthorizeAndRun(l: Ledger, c: MachineCall): (Ledger, Outcome)
    requires CanBuild(c)
  {
    var a := MachineActionOf(c);
    match Evaluate(c.cap, [c.cap.ref], None)
    case UnknownRole => MarkFailed(l, c.run, c.step, c.fate, BadRole)
    case Decision(Deny) => MarkFailed(l, c.run, c.step, c.fate, PolicyDenied)
    case Decision(Allow) => Execute(l, c.step, MachineRan(a, c.cap), c.fate)
    case Decision(ApprovalRequired) =>
      match FindByStep(l.approvals, c.step)
      case Some(i) =>
        if l.approvals[i].digest != DigestOf(a) then MarkFailed(l, c.run, c.step, c.fate, DigestMismatch)
        else (l, WaitingOn(i))
      case None =>
        if c.fate == DiesBeforeCommit then (l, Died)
        else (RequestApproval(l, c.run, c.step, DigestOf(a), Some(a.risk)), WaitingOn(|l.approvals|))
  }

  /** `run_machine_activity`: the guard is consulted only when the step is not
      already WAITING_APPROVAL. */
  function RunMachine(l: Ledger, c: MachineCall): (Ledger, Outcome) {
    if c.step !in l.steps then (l, NoStep)
    else if l.steps[c.step] == StepSucceeded then (l, Cached)
    else if !CanBuild(c) then MarkFailed(l, c.run, c.step, c.fate, BuildFailed)
    else
      var a := MachineActionOf(c);
      match StandingOf(l.approvals, c.step, DigestOf(a))
      case Mismatch => MarkFailed(l, c.run, c.step, c.fate, DigestMismatch)
      case StillPending(i) => (l, WaitingOn(i))
      case WasRejected(_) => MarkFailed(l, c.run, c.step, c.fate, ApprovalRejected)
      case _ =>
        if l.steps[c.step] == StepWaiting then Execute(l, c.step, MachineRan(a, c.cap), c.fate)
        else AuthorizeAndRun(l, c)
  }

  // --------------------------------------------------------------- agent nodes

  function AgentActionOf(c: AgentCall): Action
    requires c.cap.Some?
  {
    BuildAgentAction(c.run, c.step, c.actor, c.role, c.cap.value, c.objectiveDigest)
  }

  function AllowlistOf(c: AgentCall): seq<string>
    requires c.cap.Some?
  {
    if c.allowlist.Some? then c.allowlist.value else [c.cap.value.ref]
  }

  function GrantedEntry(c: AgentCall): Executed
    requires c.cap.Some?
  {
    AgentRan(c.step, Some(AgentGrant(AgentActionOf(c), c.cap.value, AllowlistOf(c), c.role)))
  }

  /** The guard's part of `_authorize_agent_or_wait`, for a step without a row. */
  function AuthorizeAgent(l: Ledger, c: AgentCall): (Ledger, Outcome)
    requires c.cap.Some?
  {
    var a := AgentActionOf(c);
    match Evaluate(c.cap.value, AllowlistOf(c), c.role)
    case UnknownRole => (l, Refused(BadRole))
    case Decision(Deny) =>
      if c.fate == DiesBeforeCommit then (l, Died) else (SetStep(l, c.step, StepFailed), Refused(PolicyDenied))
    case Decision(Allow) => Execute(l, c.step, GrantedEntry(c), c.fate)
    case Decision(ApprovalRequired) =>
      if c.fate == DiesBeforeCommit then (l, Died)
      else (RequestApproval(l, c.run, c.step, DigestOf(a), Some(a.risk)), WaitingOn(|l.approvals|))
  }

  /** `run_agent_step`: `_authorize_agent_or_wait`, then `run_step`. A refusal
      before `run_step` leaves the step as it was, except a guard denial. A node
      without a capability skips every check. */
  function RunAgent(l: Ledger, c: AgentCall): (Ledger, Outcome) {
    if c.step !in l.steps then (l, NoStep)
    else if l.steps[c.step] == StepSucceeded then (l, Cached)
    else if c.cap.None? then Execute(l, c.step, AgentRan(c.step, None), c.fate)
    else
      match StandingOf(l.approvals, c.step, DigestOf(AgentActionOf(c)))
      case Mismatch => (l, Refused(DigestMismatch))
      case StillPending(i) => (l, WaitingOn(i))
      case WasRejected(_) => (l, Refused(ApprovalRejected))
      case Cleared(_) => Execute(l, c.step, GrantedEntry(c), c.fate)
      case Absent => AuthorizeAgent(l, c)
  }

  // ------------------------------------------------------------ approval nodes

  /** The approval-node executor. It never compares the row's digest with the
      node's current action. */
  function RunGate(l: Ledger, c: GateCall): (Ledger, Outcome) {
    if c.step !in l.steps then (l, NoStep)
    else if l.steps[c.step] == StepSucceeded then (l, Cached)
    else match FindByStep(l.approvals, c.step)
      case None =>
        if c.dies then (l, Died)
        else (RequestApproval(l, c.run, c.step, GateDigest(c.run, c.node, c.action), c.risk), WaitingOn(|l.approvals|))
      case Some(i) =>
        if l.approvals[i].status == Pending then (l, WaitingOn(i))
        else if c.dies then (l, Died)
        else if l.approvals[i].status == Rejected then (SetStep(l, c.step, StepFailed), Refused(ApprovalRejected))
        else
          var passed := SetStep(l, c.step, StepSucceeded);
          (passed.(log := passed.log + [GatePassed(c.step, i)]), Passed(i))
  }

  // ------------------------------------------------------------------ histories

  datatype Op =
    | Machine(m: MachineCall)
    | Agent(g: AgentCall)
    | Gate(n: GateCall)
    | OperatorApprove(id: nat, channel: string, claimed: Option<string>)
    | OperatorReject(id: nat)
    | CreateStep(step: string)
    | PurgeSteps(purged: set<string>)
    | OtherWriter(step: string, status: StepStatus)

  /** A purge deletes rows, unless an approval still references one of them:
      foreign keys are on, so it then aborts and changes nothing. */
  function Purge(l: Ledger, purged: set<string>): Ledger {
    if exists i | 0 <= i < |l.approvals| :: l.approvals[i].step in purged then l
    else l.(steps := l.steps - purged)
  }

  /** One transition. `OtherWriter` is any other executor recording a status;
      none of those writes WAITING_APPROVAL. */
  function Apply(l: Ledger, op: Op): Ledger {
    match op
    case Machine(c) => RunMachine(l, c).0
    case Agent(c) => RunAgent(l, c).0
    case Gate(c) => RunGate(l, c).0
    case OperatorApprove(id, channel, claimed) => l.(approvals := Approve(l.approvals, id, channel, claimed).0)
    case OperatorReject(id) => l.(approvals := Reject(l.approvals, id).0)
    case CreateStep(step) => if step in l.steps then l else l.(steps := l.steps[step := StepPending])
    case PurgeSteps(purged) => Purge(l, purged)
    case OtherWriter(step, status) => if status == StepWaiting then l else SetStep(l, step, status)
  }

  function Run(l: Ledger, ops: seq<Op>): Ledger
    decreases |ops|
  {
    if ops == [] then l else Run(Apply(l, ops[0]), ops[1..])
  }

  /** Nothing requested, nothing run yet. */
  predicate Fresh(l: Ledger) {
    l.approvals == [] && l.log == [] && forall s | s in l.steps :: l.steps[s] != StepWaiting
  }
}
