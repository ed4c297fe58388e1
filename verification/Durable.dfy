/** Durable execution: steps, runs, crashes and recovery (`engine/executor.py`,
    `engine/run.py`, `engine/recovery.py`).

    A walk is one call of `run_workflow`. A `Fault` says where in the first step
    that is not already SUCCEEDED the walk stops; deaths fall between commits. */
module Durable {
  import opened Base

  /** A JSON text: step inputs and outputs. */
  type Value = string

  datatype RunStatus = RunCreated | RunRunning | RunSucceeded | RunFailed | RunCanceled | RunOther
  datatype StepStatus = Pending | Running | RetryWait | Succeeded | Failed | Other

  datatype StepRow = StepRow(
    run: string, node: string, status: StepStatus, output: Option<Value>, failure: Option<string>)

  /** `referenced` holds the step ids that events, approvals or artifacts point
      to; `calls` is the order in which step bodies were invoked. */
  datatype Db = Db(
    runs: map<string, RunStatus>, steps: map<string, StepRow>, referenced: set<string>, calls: seq<string>)

  /** A (step_id, fn, input_payload) triple; `fn` is deterministic. */
  datatype StepSpec = StepSpec(id: string, node: string, fn: Value -> Value, input: Value)

  datatype Fault =
    | NoFault
    | DiesBeforeStart           // before RUNNING is committed
    | DiesAfterStart            // RUNNING committed, its event not yet written
    | DiesBeforeBody            // event written, body not invoked
    | DiesInBody                // body invoked, nothing committed after it
    | BodyRaises(cls: string)   // FAILED committed, the exception propagates
    | DiesAfterCommit           // SUCCEEDED committed

  datatype Outcome = Returned(output: Value) | Raised(cls: string) | Died | NoRow | NoOutput

  // ------------------------------------------------------------------ run_step

  function SetStatus(db: Db, id: string, status: StepStatus): Db
    requires id in db.steps
  {
    db.(steps := db.steps[id := db.steps[id].(status := status)])
  }

  function RunStep(db: Db, s: StepSpec, fault: Fault): (Db, Outcome) {
    if s.id !in db.steps then (db, NoRow)
    else if db.steps[s.id].status == Succeeded then
      (db, if db.steps[s.id].output.Some? then Returned(db.steps[s.id].output.value) else NoOutput)
    else if fault == DiesBeforeStart then (db, Died)
    else
      var begun := SetStatus(db, s.id, Running);
      if fault == DiesAfterStart then (begun, Died)
      else
        var noted := begun.(referenced := begun.referenced + {s.id});
        if fault == DiesBeforeBody then (noted, Died)
        else
          var invoked := noted.(calls := noted.calls + [s.id]);
          var row := invoked.steps[s.id];
          if fault == DiesInBody then (invoked, Died)
          else if fault.BodyRaises? then
            var failed := row.(status := Failed, failure := Some(fault.cls));
            (invoked.(steps := invoked.steps[s.id := failed]), Raised(fault.cls))
          else
            var output := s.fn(s.input);
            var done := invoked.(steps := invoked.steps[s.id := row.(status := Succeeded, output := Some(output))]);
            (done, if fault == DiesAfterCommit then Died else Returned(output))
  }

  // -------------------------------------------------------------- run_workflow

  function FaultAt(faults: seq<Fault>, i: nat): Fault {
    if i < |faults| then faults[i] else NoFault
  }

  /** The loop of `run_workflow` from step `i`: it stops at the first step that
      does not return. */
  function WalkFrom(db: Db, steps: seq<StepSpec>, faults: seq<Fault>, i: nat): (Db, bool)
    requires i <= |steps|
    decreases |steps| - i
  {
    if i == |steps| then (db, true)
    else
      var (next, outcome) := RunStep(db, steps[i], FaultAt(faults, i));
      if outcome.Returned? then WalkFrom(next, steps, faults, i + 1) else (next, false)
  }

  function SetRun(db: Db, run: string, status: RunStatus): Db {
    if run in db.runs then db.(runs := db.runs[run := status]) else db
  }

  datatype Plan = Plan(diesBeforeRunning: bool, faults: seq<Fault>, diesBeforeDone: bool)

  /** `run_workflow`; the flag says whether it ran to its end. */
  function RunWorkflow(db: Db, run: string, steps: seq<StepSpec>, plan: Plan): (Db, bool) {
    if plan.diesBeforeRunning then (db, false)
    else
      var (walked, ok) := WalkFrom(SetRun(db, run, RunRunning), steps, plan.faults, 0);
      if !ok || plan.diesBeforeDone then (walked, false)
      else (SetRun(walked, run, RunSucceeded), true)
  }

  const Uninterrupted := Plan(false, [], false)

  // ------------------------------------------------------------------ recovery

  predicate IsTerminal(status: RunStatus) {
    status == RunSucceeded || status == RunFailed || status == RunCanceled
  }

  /** `scan_incomplete_runs`. */
  function Scan(db: Db): set<string> {
    set run | run in db.runs && !IsTerminal(db.runs[run])
  }

  /** `create_step`: INSERT OR IGNORE, so an existing row is left alone. */
  function CreateStep(db: Db, id: string, run: string, node: string): Db {
    if id in db.steps then db
    else db.(steps := db.steps[id := StepRow(run, node, Pending, None, None)])
  }

  function CreateSteps(db: Db, run: string, steps: seq<StepSpec>, i: nat): Db
    requires i <= |steps|
    decreases |steps| - i
  {
    if i == |steps| then db else CreateSteps(CreateStep(db, steps[i].id, run, steps[i].node), run, steps, i + 1)
  }

  function SucceededNodes(db: Db, run: string): set<string> {
    set id | id in db.steps && db.steps[id].run == run && db.steps[id].status == Succeeded :: db.steps[id].node
  }

  predicate IsDoomed(db: Db, run: string, id: string) {
    && id in db.steps && db.steps[id].run == run
    && (db.steps[id].node !in SucceededNodes(db, run) || db.steps[id].status == Running
        || db.steps[id].status == RetryWait)
  }

  /** The rows `reset_interrupted_node_steps` tries to delete. */
  function Doomed(db: Db, run: string): set<string> {
    set id | id in db.steps && IsDoomed(db, run, id)
  }

  /** `reset_interrupted_node_steps`: with foreign keys on, one referenced row
      makes a DELETE fail, and the uncommitted deletions are rolled back. */
  function ResetInterrupted(db: Db, run: string): (Db, bool) {
    if Doomed(db, run) * db.referenced != {} then (db, false)
    else (db.(steps := db.steps - Doomed(db, run)), true)
  }

  // ------------------------------------------------------------------ histories

  datatype Action = Walk(plan: Plan) | Recreate | Reset

  function Act(db: Db, run: string, steps: seq<StepSpec>, a: Action): Db {
    match a
    case Walk(plan) => RunWorkflow(db, run, steps, plan).0
    case Recreate => CreateSteps(db, run, steps, 0)
    case Reset => ResetInterrupted(db, run).0
  }

  function Replay(db: Db, run: string, steps: seq<StepSpec>, actions: seq<Action>): Db
    decreases |actions|
  {
    if actions == [] then db else Replay(Act(db, run, steps, actions[0]), run, steps, actions[1..])
  }

  function Walks(actions: seq<Action>): nat {
    if actions == [] then 0 else (if actions[0].Walk? then 1 else 0) + Walks(actions[1..])
  }
}
