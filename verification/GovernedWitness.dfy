/** Histories that show where a claim about governed actions stops. */
module GovernedWitness {
  import opened Base
  import opened ApprovalTable
  import opened CapabilityGuard
  import opened MachineAction
  import opened Governed
  import opened GovernedTheorems

  const STEP := "s"
  const CAPABILITY := Capability("c", "update", R1, "always")

  function Start(): Ledger {
    Ledger(map[STEP := StepPending], map[], [], [])
  }

  function AgentNode(cap: Option<Capability>): AgentCall {
    AgentCall("r", STEP, "agent", None, cap, None, "objective", Completes)
  }

  function MachineNode(fate: Fate): MachineCall {
    MachineCall("fs_write", "r", STEP, "n", CAPABILITY, Built(map[], None), fate)
  }

  function Node(action: string): GateCall {
    GateCall("r", STEP, "n", action, None, false)
  }

  lemma StartIsReachable()
    ensures Reachable(Start())
  {
    assert Run(Start(), []) == Start() && Fresh(Start());
  }

  lemma NeedsApproval()
    ensures Evaluate(CAPABILITY, [CAPABILITY.ref], None) == Decision(ApprovalRequired)
  {
    assert CAPABILITY.approval[0] == 'a' && "never"[0] == 'n';
  }

  /** A rejected step's agent body starts after all, as a node without a capability. */
  lemma AgentRunsAfterRejection() returns (l: Ledger, c: AgentCall)
    ensures Reachable(l) && IsRejected(l.approvals, c.step)
    ensures RunAgent(l, c).0.log != l.log && RunAgent(l, c).1 == Ran
  {
    StartIsReachable();
    NeedsApproval();
    hide Reachable, DigestOf;
    var asked := AgentNode(Some(CAPABILITY));
    ReachableStep(Start(), Agent(asked));
    var l1 := Apply(Start(), Agent(asked));
    assert l1.approvals == [Approval(STEP, DigestOf(AgentActionOf(asked)), Pending, Some(R1))];
    ReachableStep(l1, OperatorReject(0));
    l := Apply(l1, OperatorReject(0));
    assert l.approvals[0].status == Rejected;
    c := AgentNode(None);
  }

  /** An approval node passes on an approval that was given for another action. */
  lemma GatePassesChangedAction() returns (l: Ledger, c: GateCall)
    ensures Reachable(l) && RunGate(l, c).0.log != l.log
    ensures |l.approvals| == 1 && l.approvals[0].digest != GateDigest(c.run, c.node, c.action)
  {
    StartIsReachable();
    hide Reachable;
    ReachableStep(Start(), Gate(Node("a")));
    var l1 := Apply(Start(), Gate(Node("a")));
    assert l1.approvals == [Approval(STEP, GateDigest("r", "n", "a"), Pending, None)];
    ReachableStep(l1, OperatorApprove(0, "manual", None));
    l := Apply(l1, OperatorApprove(0, "manual", None));
    c := Node("b");
    assert "a"[0] != "b"[0] && "manual"[0] != "voice"[0];
  }

  function MachineRow(status: Status): Row {
    Approval(STEP, DigestOf(MachineActionOf(MachineNode(Completes))), status, Some(R1))
  }

  lemma MachineRequested()
    ensures RunMachine(Start(), MachineNode(Completes)).0
        == Ledger(map[STEP := StepWaiting], map[], [MachineRow(Pending)], [])
  {
    NeedsApproval();
    hide DigestOf, Evaluate;
  }

  lemma MachineApproved()
    ensures Reachable(Ledger(map[STEP := StepWaiting], map[], [MachineRow(Approved)], []))
  {
    StartIsReachable();
    MachineRequested();
    hide Reachable, DigestOf, RunMachine;
    ReachableStep(Start(), Machine(MachineNode(Completes)));
    var asked := Ledger(map[STEP := StepWaiting], map[], [MachineRow(Pending)], []);
    ReachableStep(asked, OperatorApprove(0, "manual", None));
    assert "manual"[0] != "voice"[0];
    assert Apply(asked, OperatorApprove(0, "manual", None)).approvals == [MachineRow(Approved)];
  }

  ghost predicate OneApproval(l: Ledger) {
    STEP in l.steps && l.approvals == [MachineRow(Approved)]
  }

  lemma DiesRunning(l: Ledger)
    requires OneApproval(l) && l.steps[STEP] == StepWaiting
    ensures RunMachine(l, MachineNode(DiesBeforeBody)).0 == l.(steps := l.steps[STEP := StepRunning])
  {
    hide DigestOf, Evaluate;
    assert MachineActionOf(MachineNode(DiesBeforeBody)) == MachineActionOf(MachineNode(Completes));
    assert FindByStep(l.approvals, STEP) == Some(0);
  }

  lemma OnlyWaits(l: Ledger)
    requires OneApproval(l) && l.steps[STEP] == StepRunning
    ensures RunMachine(l, MachineNode(Completes)) == (l, WaitingOn(0))
  {
    NeedsApproval();
    hide DigestOf, Evaluate;
    assert FindByStep(l.approvals, STEP) == Some(0);
  }

  /** A machine action is approved, its process dies with the step RUNNING, and
      the next call only reports that it is waiting. */
  lemma ApprovedMachineStepStuck() returns (l: Ledger, c: MachineCall)
    ensures Reachable(l) && c.step in l.steps && l.steps[c.step] == StepRunning && CanBuild(c)
    ensures HasDecision(l.approvals, c.step, DigestOf(MachineActionOf(c)), Approved)
    ensures RunMachine(l, c) == (l, WaitingOn(0))
  {
    MachineApproved();
    var l2 := Ledger(map[STEP := StepWaiting], map[], [MachineRow(Approved)], []);
    DiesRunning(l2);
    hide Reachable, DigestOf, RunMachine;
    ReachableStep(l2, Machine(MachineNode(DiesBeforeBody)));
    c := MachineNode(Completes);
    l := l2.(steps := l2.steps[STEP := StepRunning]);
    OnlyWaits(l);
    assert l.approvals[0].status == Approved;
  }
}
