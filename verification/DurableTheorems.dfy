/** The durability results, over every history of walks, crashes and resumes. */
module DurableTheorems {
  import opened Base
  import opened Durable
  import opened DurableProofs

  /** A run just created, with a PENDING row for each listed step. */
  ghost predicate JustCreated(db: Db, run: string, steps: seq<StepSpec>) {
    && run in db.runs && db.runs[run] == RunCreated && db.calls == []
    && forall id | id in Ids(steps, |steps|) ::
         id in db.steps && db.steps[id].status == Pending && db.steps[id].run == run
  }

  /** What every action keeps; a walk that does not complete may lose one call. */
  ghost predicate ActionKeeps(db: Db, db': Db, run: string, steps: seq<StepSpec>, lost: nat) {
    && (forall id | IsDone(db, id) :: id in db'.steps && db'.steps[id] == db.steps[id])
    && (forall id | id in db.steps && id !in Ids(steps, |steps|) && db.steps[id].run != run ::
          id in db'.steps && db'.steps[id] == db.steps[id])
    && (forall r | r in db.runs && r != run :: r in db'.runs && db'.runs[r] == db.runs[r])
    && db'.runs.Keys == db.runs.Keys
    && db.calls <= db'.calls
    && (forall i | |db.calls| <= i < |db'.calls| :: !IsDone(db, db'.calls[i]))
    && |db'.calls| + |Done(db, steps)| <= |db.calls| + |Done(db', steps)| + lost
  }

  ghost predicate Sound(db: Db, steps: seq<StepSpec>) {
    Faithful(db, steps) && PrefixDone(db, steps)
  }

  lemma SameDone(db: Db, db': Db, steps: seq<StepSpec>)
    requires Sound(db, steps)
    requires forall id | IsDone(db, id) :: id in db'.steps && db'.steps[id] == db.steps[id]
    requires forall id | IsDone(db', id) :: IsDone(db, id)
    ensures Done(db', steps) == Done(db, steps) && Sound(db', steps)
  {
  }

  lemma {:induction false} CreateKeeps(db: Db, run: string, steps: seq<StepSpec>, i: nat)
    requires i <= |steps|
    ensures var db' := CreateSteps(db, run, steps, i);
            && db'.runs == db.runs && db'.calls == db.calls && db'.referenced == db.referenced
            && (forall id | id in db.steps :: id in db'.steps && db'.steps[id] == db.steps[id])
            && (forall id | id in db'.steps && id !in db.steps :: db'.steps[id].status == Pending)
            && (forall k | i <= k < |steps| :: steps[k].id in db'.steps)
    decreases |steps| - i
  {
    if i < |steps| {
      var next := CreateStep(db, steps[i].id, run, steps[i].node);
      CreateKeeps(next, run, steps, i + 1);
    }
  }

  /** What one call of `run_step` leaves of a step that is not SUCCEEDED, by where it
      stopped: how far its row got, whether its start event is written, whether its
      body was invoked; nothing else changes. */
  lemma StepLeaves(db: Db, s: StepSpec, fault: Fault)
    requires s.id in db.steps && !IsDone(db, s.id)
    ensures
      var (db', outcome) := RunStep(db, s, fault);
      && s.id in db'.steps && db' == db.(steps := db.steps[s.id := db'.steps[s.id]], referenced := db'.referenced,
                                         calls := db'.calls)
      && (fault == DiesBeforeStart ==> db' == db)
      && (db'.referenced == if fault in {DiesBeforeStart, DiesAfterStart} then db.referenced
                            else db.referenced + {s.id})
      && (db'.calls == if fault in {DiesBeforeStart, DiesAfterStart, DiesBeforeBody} then db.calls
                       else db.calls + [s.id])
      && (IsDone(db', s.id) <==> fault in {NoFault, DiesAfterCommit})
      && (IsDone(db', s.id) ==> db'.steps[s.id].output == Some(s.fn(s.input)))
      && (fault in {DiesAfterStart, DiesBeforeBody, DiesInBody} ==> db'.steps[s.id].status == Running)
      && (fault.BodyRaises? ==> db'.steps[s.id].status == Failed && db'.steps[s.id].failure == Some(fault.cls))
      && (outcome.Returned? <==> fault == NoFault) && (outcome.Returned? ==> outcome.output == s.fn(s.input))
      && (outcome.Raised? <==> fault.BodyRaises?) && (outcome.Raised? ==> outcome.cls == fault.cls)
  {
  }

  /** A SUCCEEDED step is answered from its row. */
  lemma CachedStep(db: Db, s: StepSpec, fault: Fault)
    requires IsDone(db, s.id)
    ensures RunStep(db, s, fault).0 == db
    ensures db.steps[s.id].output.Some? ==> RunStep(db, s, fault).1 == Returned(db.steps[s.id].output.value)
  {
  }

  lemma {:induction false} WalkKeepsRuns(db: Db, steps: seq<StepSpec>, faults: seq<Fault>, i: nat)
    requires i <= |steps|
    ensures WalkFrom(db, steps, faults, i).0.runs == db.runs
    decreases |steps| - i
  {
    if i < |steps| {
      var next := RunStep(db, steps[i], FaultAt(faults, i)).0;
      hide RunStep;
      assert next.runs == db.runs by { StepKeepsRuns(db, steps[i], FaultAt(faults, i)); }
      WalkKeepsRuns(next, steps, faults, i + 1);
    }
  }

  lemma StepKeepsRuns(db: Db, s: StepSpec, fault: Fault)
    ensures RunStep(db, s, fault).0.runs == db.runs
  {
  }

  /** How a walk marks its run, in any database: SUCCEEDED exactly if it completes,
      otherwise RUNNING, unless it dies before it marks it at all. */
  lemma WalkMarksRun(db: Db, run: string, steps: seq<StepSpec>, plan: Plan)
    requires run in db.runs
    ensures
      var (after, ok) := RunWorkflow(db, run, steps, plan);
      after.runs == db.runs[run := if ok then RunSucceeded
                                   else if plan.diesBeforeRunning then db.runs[run] else RunRunning]
  {
    WalkKeepsRuns(SetRun(db, run, RunRunning), steps, plan.faults, 0);
    hide WalkFrom;
  }

  /** A reset never deletes a SUCCEEDED row. */
  lemma ResetKeepsSucceeded(db: Db, run: string, id: string)
    requires IsDone(db, id)
    ensures id in ResetInterrupted(db, run).0.steps && ResetInterrupted(db, run).0.steps[id] == db.steps[id]
  {
  }

  lemma RunStatusOnly(db: Db, run: string, steps: seq<StepSpec>, status: RunStatus)
    requires Sound(db, steps)
    ensures Sound(SetRun(db, run, status), steps) && Done(SetRun(db, run, status), steps) == Done(db, steps)
    ensures ActionKeeps(db, SetRun(db, run, status), run, steps, 0)
  {
  }

  lemma ChangesAreKept(db: Db, db': Db, run: string, steps: seq<StepSpec>, ok: bool)
    requires WalkChanges(db, db', steps, ok) && db'.runs == db.runs
    ensures ActionKeeps(db, db', run, steps, if ok then 0 else 1)
  {
  }

  lemma KeepsMonotone(db: Db, db': Db, run: string, steps: seq<StepSpec>, m: nat, n: nat)
    requires ActionKeeps(db, db', run, steps, m) && m <= n
    ensures ActionKeeps(db, db', run, steps, n)
  {
  }

  lemma WalkKeeps(db: Db, run: string, steps: seq<StepSpec>, plan: Plan)
    requires Sound(db, steps)
    ensures
      var (db', ok) := RunWorkflow(db, run, steps, plan);
      && Sound(db', steps) && ActionKeeps(db, db', run, steps, if ok then 0 else 1)
      && (ok ==> Done(db', steps) == Ids(steps, |steps|))
  {
    var begun := SetRun(db, run, RunRunning);
    RunStatusOnly(db, run, steps, RunRunning);
    assert Ids(steps, 0) <= Done(begun, steps);
    WalkFacts(begun, steps, plan.faults, 0);
    var (walked, ok) := WalkFrom(begun, steps, plan.faults, 0);
    hide WalkFrom, ActionKeeps, WalkChanges, Faithful, PrefixDone;
    ChangesAreKept(begun, walked, run, steps, ok);
    RunStatusOnly(walked, run, steps, RunSucceeded);
    KeepsCompose(db, begun, walked, run, steps, 0, if ok then 0 else 1);
    KeepsCompose(db, walked, SetRun(walked, run, RunSucceeded), run, steps, if ok then 0 else 1, 0);
    RunStatusOnly(db, run, steps, RunRunning);
    NothingKept(db, run, steps);
    if ok { KeepsMonotone(db, walked, run, steps, 0, 1); }
  }

  lemma NothingKept(db: Db, run: string, steps: seq<StepSpec>)
    ensures ActionKeeps(db, db, run, steps, 1)
  {
  }

  lemma ActFacts(db: Db, run: string, steps: seq<StepSpec>, a: Action)
    requires Sound(db, steps)
    ensures Sound(Act(db, run, steps, a), steps)
    ensures ActionKeeps(db, Act(db, run, steps, a), run, steps, if a.Walk? then 1 else 0)
  {
    var db' := Act(db, run, steps, a);
    match a
    case Walk(plan) => WalkKeeps(db, run, steps, plan);
    case Recreate =>
      CreateKeeps(db, run, steps, 0);
      SameDone(db, db', steps);
    case Reset =>
      forall id | IsDone(db, id) ensures id in db'.steps && db'.steps[id] == db.steps[id] {
        ResetKeepsSucceeded(db, run, id);
      }
      SameDone(db, db', steps);
  }

  lemma KeepsCompose(a: Db, b: Db, c: Db, run: string, steps: seq<StepSpec>, m: nat, n: nat)
    requires ActionKeeps(a, b, run, steps, m) && ActionKeeps(b, c, run, steps, n)
    ensures ActionKeeps(a, c, run, steps, m + n)
  {
  }

  /** Over every history: SUCCEEDED steps keep their rows and their bodies are
      never invoked again, they form a prefix of the list, rows of other runs are
      untouched, and at most one invocation is lost per walk. */
  lemma {:induction false} HistoryKeeps(db: Db, run: string, steps: seq<StepSpec>, actions: seq<Action>)
    requires Sound(db, steps)
    ensures Sound(Replay(db, run, steps, actions), steps)
    ensures ActionKeeps(db, Replay(db, run, steps, actions), run, steps, Walks(actions))
    decreases |actions|
  {
    if actions != [] {
      hide Act;
      var next := Act(db, run, steps, actions[0]);
      ActFacts(db, run, steps, actions[0]);
      HistoryKeeps(next, run, steps, actions[1..]);
      KeepsCompose(db, next, Replay(next, run, steps, actions[1..]), run, steps,
                   if actions[0].Walk? then 1 else 0, Walks(actions[1..]));
    }
  }

  lemma CreatedIsSound(db: Db, run: string, steps: seq<StepSpec>)
    requires JustCreated(db, run, steps)
    ensures Sound(db, steps) && Done(db, steps) == {}
  {
    assert Done(db, steps) == {};
    assert Done(db, steps) == Ids(steps, 0);
  }

  /** SUCCEEDED steps always form a prefix of the list, whatever crashed. */
  lemma SucceededStepsFormPrefix(db: Db, run: string, steps: seq<StepSpec>, actions: seq<Action>)
    requires JustCreated(db, run, steps)
    ensures PrefixDone(Replay(db, run, steps, actions), steps)
  {
    CreatedIsSound(db, run, steps);
    HistoryKeeps(db, run, steps, actions);
  }

  /** A step that is SUCCEEDED at some moment is never invoked again. */
  lemma SucceededNeverReinvoked(db: Db, run: string, steps: seq<StepSpec>, earlier: seq<Action>, later: seq<Action>)
    requires JustCreated(db, run, steps)
    ensures
      var now := Replay(db, run, steps, earlier);
      var end := Replay(now, run, steps, later);
      now.calls <= end.calls && forall i | |now.calls| <= i < |end.calls| :: !IsDone(now, end.calls[i])
  {
    CreatedIsSound(db, run, steps);
    HistoryKeeps(db, run, steps, earlier);
    HistoryKeeps(Replay(db, run, steps, earlier), run, steps, later);
  }

  // --------------------------------------------------------------- refinement

  lemma NoFaultReturns(db: Db, steps: seq<StepSpec>, i: nat)
    requires i < |steps| && Faithful(db, steps) && steps[i].id in db.steps
    ensures RunStep(db, steps[i], NoFault).1.Returned?
  {
  }

  lemma {:induction false} CleanWalk(db: Db, steps: seq<StepSpec>, i: nat)
    requires i <= |steps| && Faithful(db, steps) && Ids(steps, i) <= Done(db, steps)
    requires forall id | id in Ids(steps, |steps|) :: id in db.steps
    ensures WalkFrom(db, steps, [], i).1
    decreases |steps| - i
  {
    if i < |steps| {
      hide RunStep, Faithful;
      IdsContain(steps, |steps|);
      StepFacts(db, steps, i, NoFault);
      NoFaultReturns(db, steps, i);
      IdsStep(steps, i);
      CleanWalk(RunStep(db, steps[i], NoFault).0, steps, i + 1);
    }
  }

  /** Crash refinement: whatever walks crashed or failed and whatever recovery
      did between them, a walk that completes leaves every listed step with the
      status and output of one uninterrupted walk, which is the output its own
      body computes, and the run SUCCEEDED. */
  lemma CrashRefinement(db: Db, run: string, steps: seq<StepSpec>, actions: seq<Action>, last: Plan)
    requires JustCreated(db, run, steps)
    requires RunWorkflow(Replay(db, run, steps, actions), run, steps, last).1
    ensures
      var crashed := RunWorkflow(Replay(db, run, steps, actions), run, steps, last).0;
      var (clean, ok) := RunWorkflow(db, run, steps, Uninterrupted);
      && ok && run in crashed.runs && run in clean.runs
      && crashed.runs[run] == clean.runs[run] == RunSucceeded
      && forall id | id in Ids(steps, |steps|) ::
           && id in crashed.steps && id in clean.steps
           && crashed.steps[id].status == clean.steps[id].status == Succeeded
           && crashed.steps[id].output == clean.steps[id].output == Some(Expected(steps, id))
  {
    hide WalkFrom, Replay, ActionKeeps, PrefixDone;
    CreatedIsSound(db, run, steps);
    HistoryKeeps(db, run, steps, actions);
    var before := Replay(db, run, steps, actions);
    KeepsRuns(db, before, run, steps, Walks(actions));
    WalkKeeps(before, run, steps, last);
    KeepsRuns(before, RunWorkflow(before, run, steps, last).0, run, steps, 0);
    var begun := SetRun(db, run, RunRunning);
    SameDone(db, begun, steps);
    CleanWalk(begun, steps, 0);
    WalkKeeps(db, run, steps, Uninterrupted);
    KeepsRuns(db, RunWorkflow(db, run, steps, Uninterrupted).0, run, steps, 0);
    var crashed := RunWorkflow(before, run, steps, last).0;
    var clean := RunWorkflow(db, run, steps, Uninterrupted).0;
    forall id | id in Ids(steps, |steps|)
      ensures IsDone(crashed, id) && IsDone(clean, id)
      ensures crashed.steps[id].output == clean.steps[id].output == Some(Expected(steps, id))
    {
      assert id in Done(crashed, steps) && id in Done(clean, steps);
    }
  }

  lemma KeepsRuns(db: Db, db': Db, run: string, steps: seq<StepSpec>, lost: nat)
    requires ActionKeeps(db, db', run, steps, lost)
    ensures db'.runs.Keys == db.runs.Keys
  {
  }

  /** Work bound: n steps and k walks, the last of which completes, invoke at
      most n + (k - 1) step bodies. */
  lemma WorkBound(db: Db, run: string, steps: seq<StepSpec>, actions: seq<Action>, last: Plan)
    requires JustCreated(db, run, steps)
    requires RunWorkflow(Replay(db, run, steps, actions), run, steps, last).1
    ensures
      var k := Walks(actions) + 1;
      |RunWorkflow(Replay(db, run, steps, actions), run, steps, last).0.calls| <= |steps| + (k - 1)
  {
    hide RunWorkflow, Replay;
    CreatedIsSound(db, run, steps);
    HistoryKeeps(db, run, steps, actions);
    var before := Replay(db, run, steps, actions);
    WalkKeeps(before, run, steps, last);
    IdsSize(steps, |steps|);
  }

  lemma {:induction false} IdsSize(steps: seq<StepSpec>, k: nat)
    requires k <= |steps|
    ensures |Ids(steps, k)| <= k
  {
    if k == 0 {
      assert Ids(steps, 0) == {};
    } else {
      IdsSize(steps, k - 1);
      IdsStep(steps, k - 1);
      AddOne(Ids(steps, k - 1), steps[k - 1].id);
    }
  }

  lemma AddOne(s: set<string>, x: string)
    ensures |s + {x}| <= |s| + 1
  {
  }

  // ------------------------------------------------------------ recovery scan

  /** After a walk that got as far as marking the run, the scan lists the run
      exactly when the walk did not complete; it never touches another run. */
  lemma ScanExactly(db: Db, run: string, steps: seq<StepSpec>, plan: Plan, other: string)
    requires Sound(db, steps) && run in db.runs
    ensures
      var (after, ok) := RunWorkflow(db, run, steps, plan);
      && (run in Scan(after) <==> if plan.diesBeforeRunning then run in Scan(db) else !ok)
      && (other != run ==> (other in Scan(after) <==> other in Scan(db)))
  {
    var begun := SetRun(db, run, RunRunning);
    SameDone(db, begun, steps);
    WalkFacts(begun, steps, plan.faults, 0);
  }

  predicate NoneCompletes(db: Db, run: string, steps: seq<StepSpec>, actions: seq<Action>)
    decreases |actions|
  {
    if actions == [] then true
    else
      && (actions[0].Walk? ==> !RunWorkflow(db, run, steps, actions[0].plan).1)
      && NoneCompletes(Act(db, run, steps, actions[0]), run, steps, actions[1..])
  }

  lemma {:induction false} StaysInScan(db: Db, run: string, steps: seq<StepSpec>, actions: seq<Action>)
    requires Sound(db, steps) && run in Scan(db) && NoneCompletes(db, run, steps, actions)
    ensures run in Scan(Replay(db, run, steps, actions))
    decreases |actions|
  {
    if actions != [] {
      var next := Act(db, run, steps, actions[0]);
      ActFacts(db, run, steps, actions[0]);
      match actions[0] {
        case Walk(plan) => ScanExactly(db, run, steps, plan, run);
        case Recreate => CreateKeeps(db, run, steps, 0);
        case Reset =>
      }
      StaysInScan(next, run, steps, actions[1..]);
    }
  }

  /** From creation on, an interrupted run is listed for recovery until one of
      its walks completes, and no longer once one has. */
  lemma InterruptedRunIsScanned(db: Db, run: string, steps: seq<StepSpec>, actions: seq<Action>, last: Plan)
    requires JustCreated(db, run, steps) && NoneCompletes(db, run, steps, actions)
    ensures
      var before := Replay(db, run, steps, actions);
      var (after, ok) := RunWorkflow(before, run, steps, last);
      run in Scan(before) && (run in Scan(after) <==> !ok)
  {
    hide RunWorkflow, Replay, NoneCompletes;
    CreatedIsSound(db, run, steps);
    StaysInScan(db, run, steps, actions);
    HistoryKeeps(db, run, steps, actions);
    ScanExactly(Replay(db, run, steps, actions), run, steps, last, run);
    PlanStops(Replay(db, run, steps, actions), run, steps, last);
  }

  lemma PlanStops(db: Db, run: string, steps: seq<StepSpec>, plan: Plan)
    ensures plan.diesBeforeRunning ==> !RunWorkflow(db, run, steps, plan).1
  {
  }
}
