/** The approvals, steps and runs tables as the worker and the operator change
    them, statement by statement. Each method is tied to its specification in
    `Governed`, over which the safety results are proved. */
module GovernedStore {
  import opened Base
  import opened ApprovalTable
  import opened CapabilityGuard
  import opened MachineAction
  import opened Governed
  import opened GovernedProofs
  import opened GovernedTheorems
  import opened GovernedOutcomes

  class Store {
    var steps: map<string, StepStatus>
    var runs: map<string, RunStatus>
    var approvals: seq<Row>
    var log: seq<Executed>

    function State(): Ledger
      reads this
    {
      Ledger(steps, runs, approvals, log)
    }

    /** Some history of calls and decisions leads here. */
    ghost predicate Valid()
      reads this
    {
      Reachable(State())
    }

    constructor (steps: map<string, StepStatus>, runs: map<string, RunStatus>)
      ensures State() == Ledger(steps, runs, [], [])
      ensures (forall s | s in steps :: steps[s] != StepWaiting) ==> Valid()
    {
      this.steps, this.runs, approvals, log := steps, runs, [], [];
      new;
      assert Run(State(), []) == State();
    }

    method UpdateStep(step: string, status: StepStatus)
      modifies this`steps
      ensures State() == SetStep(old(State()), step, status)
    {
      if step in steps {
        steps := steps[step := status];
      }
    }

    method UpdateRun(run: string, status: RunStatus)
      modifies this`runs
      ensures State() == SetRun(old(State()), run, status)
    {
      if run in runs {
        runs := runs[run := status];
      }
    }

    /** `approved_or_waiting` / `_approval_status`. */
    method ReadStanding(step: string, digest: Digest<Preimage>) returns (standing: Standing)
      ensures standing == StandingOf(approvals, step, digest)
      ensures Valid() ==> (standing.Cleared? <==> HasDecision(approvals, step, digest, Approved))
      ensures Valid() ==> (standing.Absent? <==> !HasRow(approvals, step))
    {
      if Valid() {
        ReachableKeepsInv(State());
        StandingExactly(State(), step, digest);
      }
      hide Reachable, HasDecision, HasRow;
      var row := FindByStep(approvals, step);
      if row.None? {
        return Absent;
      }
      if approvals[row.value].digest != digest {
        return Mismatch;
      }
      if approvals[row.value].status == Pending {
        return StillPending(row.value);
      }
      if approvals[row.value].status == Rejected {
        return WasRejected(row.value);
      }
      return Cleared(row.value);
    }

    /** Insert the pending row and park step and run, in one commit. */
    method InsertPending(run: string, step: string, digest: Digest<Preimage>, risk: Option<Risk>) returns (id: nat)
      modifies this
      ensures id == old(|approvals|)
      ensures State() == RequestApproval(old(State()), run, step, digest, risk)
    {
      id := |approvals|;
      approvals := approvals + [Approval(step, digest, Pending, risk)];
      UpdateStep(step, StepWaiting);
      UpdateRun(run, RunWaiting);
    }

    method RecordFailure(run: string, step: string, fate: Fate, why: Refusal) returns (outcome: Outcome)
      modifies this
      ensures (State(), outcome) == MarkFailed(old(State()), run, step, fate, why)
    {
      if fate == DiesBeforeCommit {
        return Died;
      }
      UpdateStep(step, StepFailed);
      UpdateRun(run, RunFailed);
      return Refused(why);
    }

    /** Commit RUNNING, start the body, commit its result. */
    method StartBody(step: string, entry: Executed, fate: Fate) returns (outcome: Outcome)
      modifies this
      ensures (State(), outcome) == Execute(old(State()), step, entry, fate)
    {
      if fate == DiesBeforeCommit {
        return Died;
      }
      UpdateStep(step, StepRunning);
      if fate == DiesBeforeBody {
        return Died;
      }
      log := log + [entry];
      if fate == DiesInBody {
        return Died;
      }
      if fate == BodyRaises {
        UpdateStep(step, StepFailed);
        if entry.MachineRan? {
          UpdateRun(entry.action.run, RunFailed);
        }
        return BodyFailed;
      }
      UpdateStep(step, StepSucceeded);
      return Ran;
    }

    /** `authorize_machine_action` and `_ensure_pending_approval`, then the body. */
    method Authorize(c: MachineCall) returns (outcome: Outcome)
      requires CanBuild(c)
      modifies this
      ensures (State(), outcome) == AuthorizeAndRun(old(State()), c)
      ensures if ReachesBody(c.fate) && NeedsNobody(c.cap) then StartsMachineBody(old(State()), State(), c)
              else log == old(log)
    {
      AuthorizeStarts(State(), c);
      var action := MachineActionOf(c);
      var verdict := Evaluate(c.cap, [c.cap.ref], None);
      if verdict.UnknownRole? {
        outcome := RecordFailure(c.run, c.step, c.fate, BadRole);
        return;
      }
      if verdict.decision == Deny {
        outcome := RecordFailure(c.run, c.step, c.fate, PolicyDenied);
        return;
      }
      if verdict.decision == Allow {
        outcome := StartBody(c.step, MachineRan(action, c.cap), c.fate);
        return;
      }
      var row := FindByStep(approvals, c.step);
      if row.Some? {
        if approvals[row.value].digest != DigestOf(action) {
          outcome := RecordFailure(c.run, c.step, c.fate, DigestMismatch);
          return;
        }
        return WaitingOn(row.value);
      }
      if c.fate == DiesBeforeCommit {
        return Died;
      }
      var id := InsertPending(c.run, c.step, DigestOf(action), Some(action.risk));
      return WaitingOn(id);
    }

    /** `run_machine_activity`. */
    method RunMachineActivity(c: MachineCall) returns (outcome: Outcome)
      modifies this
      ensures (State(), outcome) == RunMachine(old(State()), c)
      ensures old(Valid()) ==> Valid()
      ensures old(Valid()) ==> (log != old(log) <==> MayStartMachine(old(State()), c))
      ensures old(Valid()) && log != old(log) ==> StartsMachineBody(old(State()), State(), c)
      ensures outcome == Ran ==> StepIs(State(), c.step, StepSucceeded)
      ensures outcome.BodyFailed? || outcome.Refused? ==>
                StepIs(State(), c.step, StepFailed) && RunIs(State(), c.run, RunFailed)
      ensures outcome == Died && c.fate != DiesBeforeCommit ==> StepIs(State(), c.step, StepRunning)
    {
      MachineLeaves(State(), c);
      if Valid() {
        ReachableStep(State(), Machine(c));
        MachineBodyStartsExactly(State(), c);
      }
      hide Reachable, MayStartMachine, StartsMachineBody, HasDecision, RunIs;
      if c.step !in steps {
        return NoStep;
      }
      var status := steps[c.step];
      if status == StepSucceeded {
        return Cached;
      }
      if !CanBuild(c) {
        outcome := RecordFailure(c.run, c.step, c.fate, BuildFailed);
        return;
      }
      var action := MachineActionOf(c);
      var standing := ReadStanding(c.step, DigestOf(action));
      if standing == Mismatch {
        outcome := RecordFailure(c.run, c.step, c.fate, DigestMismatch);
        return;
      }
      if standing.StillPending? {
        return WaitingOn(standing.id);
      }
      if standing.WasRejected? {
        outcome := RecordFailure(c.run, c.step, c.fate, ApprovalRejected);
        return;
      }
      if status != StepWaiting {
        outcome := Authorize(c);
        return;
      }
      outcome := StartBody(c.step, MachineRan(action, c.cap), c.fate);
    }

    /** `run_agent_step`. */
    method RunAgentStep(c: AgentCall) returns (outcome: Outcome)
      modifies this
      ensures (State(), outcome) == RunAgent(old(State()), c)
      ensures old(Valid()) ==> Valid() && (log != old(log) <==> MayStartAgent(old(State()), c))
      ensures old(Valid()) && log != old(log) ==> log == old(log) + [StartedAgent(c)]
      ensures outcome == Ran ==> StepIs(State(), c.step, StepSucceeded)
      ensures outcome.BodyFailed? || outcome == Refused(PolicyDenied) ==> StepIs(State(), c.step, StepFailed)
      ensures outcome == Died && c.fate != DiesBeforeCommit ==> StepIs(State(), c.step, StepRunning)
    {
      AgentLeaves(State(), c);
      if Valid() {
        ReachableStep(State(), Agent(c));
        AgentBodyStartsExactly(State(), c);
      }
      hide Reachable, MayStartAgent, HasDecision;
      if c.step !in steps {
        return NoStep;
      }
      if steps[c.step] == StepSucceeded {
        return Cached;
      }
      if c.cap.None? {
        outcome := StartBody(c.step, AgentRan(c.step, None), c.fate);
        return;
      }
      var standing := ReadStanding(c.step, DigestOf(AgentActionOf(c)));
      if standing == Mismatch {
        return Refused(DigestMismatch);
      }
      if standing.StillPending? {
        return WaitingOn(standing.id);
      }
      if standing.WasRejected? {
        return Refused(ApprovalRejected);
      }
      if standing.Absent? {
        outcome := AuthorizeAgentNode(c);
        return;
      }
      outcome := StartBody(c.step, GrantedEntry(c), c.fate);
    }

    method AuthorizeAgentNode(c: AgentCall) returns (outcome: Outcome)
      requires c.cap.Some?
      modifies this
      ensures (State(), outcome) == AuthorizeAgent(old(State()), c)
    {
      var verdict := Evaluate(c.cap.value, AllowlistOf(c), c.role);
      if verdict.UnknownRole? {
        return Refused(BadRole);
      }
      if verdict.decision == Allow {
        outcome := StartBody(c.step, GrantedEntry(c), c.fate);
        return;
      }
      if c.fate == DiesBeforeCommit {
        return Died;
      }
      if verdict.decision == Deny {
        UpdateStep(c.step, StepFailed);
        return Refused(PolicyDenied);
      }
      var action := AgentActionOf(c);
      var id := InsertPending(c.run, c.step, DigestOf(action), Some(action.risk));
      return WaitingOn(id);
    }

    /** The approval-node executor. */
    method RunApprovalNode(c: GateCall) returns (outcome: Outcome)
      modifies this
      ensures (State(), outcome) == RunGate(old(State()), c)
      ensures old(Valid()) ==> Valid() && (log != old(log) <==> MayPassGate(old(State()), c))
      ensures outcome.Passed? ==> StepIs(State(), c.step, StepSucceeded)
      ensures outcome.Refused? ==> StepIs(State(), c.step, StepFailed)
    {
      if Valid() {
        ReachableStep(State(), Gate(c));
        GatePassesExactly(State(), c);
      }
      hide Reachable, MayPassGate;
      if c.step !in steps {
        return NoStep;
      }
      if steps[c.step] == StepSucceeded {
        return Cached;
      }
      var row := FindByStep(approvals, c.step);
      if row.None? {
        if c.dies {
          return Died;
        }
        var id := InsertPending(c.run, c.step, GateDigest(c.run, c.node, c.action), c.risk);
        return WaitingOn(id);
      }
      if approvals[row.value].status == Pending {
        return WaitingOn(row.value);
      }
      if c.dies {
        return Died;
      }
      if approvals[row.value].status == Rejected {
        UpdateStep(c.step, StepFailed);
        return Refused(ApprovalRejected);
      }
      UpdateStep(c.step, StepSucceeded);
      log := log + [GatePassed(c.step, row.value)];
      return Passed(row.value);
    }

    /** `_decide_approval`. */
    method DecideApproval(id: nat, status: Status) returns (reply: Reply)
      modifies this`approvals
      ensures (approvals, reply) == Decide(old(approvals), id, status)
      ensures reply == Decided(status) <==> id < |old(approvals)| && old(approvals)[id].status == Pending
      ensures |approvals| == |old(approvals)|
      ensures forall i | 0 <= i < |approvals| && (i != id || reply != Decided(status)) ::
          approvals[i] == old(approvals)[i]
    {
      if id >= |approvals| {
        return NoSuchApproval;
      }
      if approvals[id].status != Pending {
        return NotPending(approvals[id].status);
      }
      approvals := approvals[id := approvals[id].(status := status)];
      return Decided(status);
    }

    /** `op_approval_approve`. */
    method OpApprove(id: nat, channel: string, claimed: Option<string>) returns (reply: Reply)
      modifies this`approvals
      ensures State() == Apply(old(State()), OperatorApprove(id, channel, claimed))
      ensures reply == Approve(old(approvals), id, channel, claimed).1
      ensures old(Valid()) ==> Valid()
      ensures channel == "voice" && reply == Decided(Approved) ==> VoiceMay(old(approvals)[id].risk, claimed)
      ensures if reply == Decided(Approved) then OneDecided(old(approvals), approvals, id, Approved)
              else approvals == old(approvals)
    {
      if Valid() { ReachableStep(State(), OperatorApprove(id, channel, claimed)); }
      if channel == "voice" { VoiceApprovesExactly(approvals, id, claimed); }
      hide Reachable;
      if channel == "voice" {
        if id >= |approvals| {
          return NoSuchApproval;
        }
        var stored := approvals[id].risk;
        if claimed.Some? && stored.Some? && claimed.value != RiskName(stored.value) {
          return RiskMismatch;
        }
        if !VoiceMayDecide(EffectiveRisk(claimed, stored), true) {
          return NeedsScreen;
        }
      }
      reply := DecideApproval(id, Approved);
    }

    /** `op_approval_reject`. */
    method OpReject(id: nat) returns (reply: Reply)
      modifies this`approvals
      ensures State() == Apply(old(State()), OperatorReject(id))
      ensures reply == Reject(old(approvals), id).1
      ensures old(Valid()) ==> Valid()
      ensures reply == Decided(Rejected) ==> IsRejected(approvals, old(approvals)[id].step)
    {
      if Valid() { ReachableStep(State(), OperatorReject(id)); }
      hide Reachable;
      reply := DecideApproval(id, Rejected);
      if reply == Decided(Rejected) {
        assert approvals[id].status == Rejected;
      }
    }
  }
}
