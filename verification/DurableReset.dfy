/** When the reset that a resume starts with goes through
    (`reset_interrupted_node_steps` in `engine/recovery.py`). */
module DurableReset {
  import opened Base
  import opened Durable
  import opened DurableProofs
  import opened DurableTheorems

  /** A row a reset leaves alone: neither in flight nor of a node without success. */
  predicate Settled(db: Db, id: string)
    requires id in db.steps
  {
    && db.steps[id].status != Running && db.steps[id].status != RetryWait
    && exists other | other in db.steps ::
         db.steps[other].run == db.steps[id].run && db.steps[other].node == db.steps[id].node && IsDone(db, other)
  }

  /** In any database, a reset commits exactly when every row of the run that a
      foreign key references is settled. */
  lemma ResetGoesThroughExactly(db: Db, run: string)
    ensures ResetInterrupted(db, run).1
            <==> forall id | id in db.steps && db.steps[id].run == run && id in db.referenced :: Settled(db, id)
  {
    forall id | id in db.steps && db.steps[id].run == run ensures id in Doomed(db, run) <==> !Settled(db, id) {
      DoomedExactly(db, run, id);
    }
    var stuck := Doomed(db, run) * db.referenced;
    if forall id | id in db.steps && db.steps[id].run == run && id in db.referenced :: Settled(db, id) {
      assert forall id :: id !in stuck;
    } else {
      var id :| id in db.steps && db.steps[id].run == run && id in db.referenced && !Settled(db, id);
      assert id in stuck;
    }
  }

  /** What a reset that commits leaves: exactly the rows of other runs and the settled
      rows of this one, as they were, and everything else untouched. */
  lemma ResetDeletesExactly(db: Db, run: string)
    ensures
      var (after, committed) := ResetInterrupted(db, run);
      && after == db.(steps := after.steps)
      && (forall id | id in after.steps :: id in db.steps && after.steps[id] == db.steps[id])
      && (forall id | id in db.steps ::
            id in after.steps <==> committed && db.steps[id].run == run ==> Settled(db, id))
  {
    hide Settled, SucceededNodes;
    forall id | id in db.steps && db.steps[id].run == run ensures id in Doomed(db, run) <==> !Settled(db, id) {
      DoomedExactly(db, run, id);
    }
  }

  lemma DoomedExactly(db: Db, run: string, id: string)
    requires id in db.steps && db.steps[id].run == run
    ensures id in Doomed(db, run) <==> !Settled(db, id)
  {
    if db.steps[id].node in SucceededNodes(db, run) {
      var other :| other in db.steps && db.steps[other].run == run && db.steps[other].status == Succeeded
                   && db.steps[other].node == db.steps[id].node;
      assert IsDone(db, other);
    }
  }

  /** A body that was invoked still has its row, which belongs to the run and which
      its start event references. */
  ghost predicate CallsAreReferenced(db: Db, run: string, steps: seq<StepSpec>) {
    && (forall id | id in Ids(steps, |steps|) && id in db.steps :: db.steps[id].run == run)
    && (forall id | id in db.calls :: id in db.steps && db.steps[id].run == run && id in db.referenced)
  }

  lemma StepKeepsReferences(db: Db, run: string, steps: seq<StepSpec>, i: nat, fault: Fault)
    requires i < |steps| && CallsAreReferenced(db, run, steps)
    ensures CallsAreReferenced(RunStep(db, steps[i], fault).0, run, steps)
  {
    IdsContain(steps, |steps|);
  }

  lemma {:induction false} WalkKeepsReferences(db: Db, run: string, steps: seq<StepSpec>, faults: seq<Fault>, i: nat)
    requires i <= |steps| && CallsAreReferenced(db, run, steps)
    ensures CallsAreReferenced(WalkFrom(db, steps, faults, i).0, run, steps)
    decreases |steps| - i
  {
    if i < |steps| {
      hide RunStep, CallsAreReferenced;
      var (next, outcome) := RunStep(db, steps[i], FaultAt(faults, i));
      StepKeepsReferences(db, run, steps, i, FaultAt(faults, i));
      if outcome.Returned? { WalkKeepsReferences(next, run, steps, faults, i + 1); }
    }
  }

  lemma {:induction false} CreateKeepsReferences(db: Db, run: string, steps: seq<StepSpec>, i: nat)
    requires i <= |steps| && CallsAreReferenced(db, run, steps)
    ensures CallsAreReferenced(CreateSteps(db, run, steps, i), run, steps)
    decreases |steps| - i
  {
    if i < |steps| { CreateKeepsReferences(CreateStep(db, steps[i].id, run, steps[i].node), run, steps, i + 1); }
  }

  lemma ResetKeepsReferences(db: Db, run: string, steps: seq<StepSpec>)
    requires CallsAreReferenced(db, run, steps)
    ensures CallsAreReferenced(ResetInterrupted(db, run).0, run, steps)
  {
    if ResetInterrupted(db, run).1 {
      forall id | id in db.calls ensures id !in Doomed(db, run) {
        assert id in Doomed(db, run) ==> id in Doomed(db, run) * db.referenced;
      }
    }
  }

  lemma {:induction false} HistoryKeepsReferences(db: Db, run: string, steps: seq<StepSpec>, actions: seq<Action>)
    requires CallsAreReferenced(db, run, steps)
    ensures CallsAreReferenced(Replay(db, run, steps, actions), run, steps)
    decreases |actions|
  {
    if actions != [] {
      match actions[0] {
        case Walk(plan) => WalkKeepsReferences(SetRun(db, run, RunRunning), run, steps, plan.faults, 0);
        case Recreate => CreateKeepsReferences(db, run, steps, 0);
        case Reset => ResetKeepsReferences(db, run, steps);
      }
      HistoryKeepsReferences(Act(db, run, steps, actions[0]), run, steps, actions[1..]);
    }
  }

  /** What a lost body means for the reset that a resume starts with. Over every
      history, and whatever other runs and shared nodes the database holds: the reset
      aborts, and changes nothing, exactly when some started step of the run is not
      settled; every step whose body was invoked is such a started step, so a body
      whose result was lost stands in the way exactly if it is still in flight or
      its node has no success. */
  lemma LostBodyBlocksReset(db: Db, run: string, steps: seq<StepSpec>, actions: seq<Action>)
    requires JustCreated(db, run, steps)
    ensures
      var now := Replay(db, run, steps, actions);
      var (after, committed) := ResetInterrupted(now, run);
      && (!committed <==>
            exists id :: id in now.steps && now.steps[id].run == run && id in now.referenced && !Settled(now, id))
      && (!committed ==> after == now)
      && (forall id | id in now.calls :: id in now.steps && now.steps[id].run == run && id in now.referenced)
      && ((exists id :: id in now.calls && !Settled(now, id)) ==> !committed)
  {
    hide Replay;
    HistoryKeepsReferences(db, run, steps, actions);
    ResetGoesThroughExactly(Replay(db, run, steps, actions), run);
    hide Settled, Doomed;
  }

  /** A node is the node of one step only. */
  predicate DistinctNodes(steps: seq<StepSpec>) {
    forall i, j | 0 <= i < |steps| && 0 <= j < |steps| && steps[i].node == steps[j].node :: steps[i].id == steps[j].id
  }

  /** The run's rows are rows of listed steps, each under its step's node. */
  ghost predicate RowsAreListed(db: Db, run: string, steps: seq<StepSpec>) {
    forall id | id in db.steps && db.steps[id].run == run ::
      exists i | 0 <= i < |steps| :: steps[i].id == id && steps[i].node == db.steps[id].node
  }

  lemma StepKeepsListed(db: Db, run: string, steps: seq<StepSpec>, s: StepSpec, fault: Fault)
    requires RowsAreListed(db, run, steps)
    ensures RowsAreListed(RunStep(db, s, fault).0, run, steps)
  {
    var db' := RunStep(db, s, fault).0;
    forall id | id in db'.steps && db'.steps[id].run == run
      ensures exists i | 0 <= i < |steps| :: steps[i].id == id && steps[i].node == db'.steps[id].node
    {
      assert id in db.steps && db.steps[id].run == run && db.steps[id].node == db'.steps[id].node;
    }
  }

  lemma {:induction false} WalkKeepsListed(db: Db, run: string, steps: seq<StepSpec>, faults: seq<Fault>, i: nat)
    requires i <= |steps| && RowsAreListed(db, run, steps)
    ensures RowsAreListed(WalkFrom(db, steps, faults, i).0, run, steps)
    decreases |steps| - i
  {
    if i < |steps| {
      hide RunStep, RowsAreListed;
      var (next, outcome) := RunStep(db, steps[i], FaultAt(faults, i));
      StepKeepsListed(db, run, steps, steps[i], FaultAt(faults, i));
      if outcome.Returned? { WalkKeepsListed(next, run, steps, faults, i + 1); }
    }
  }

  lemma {:induction false} CreateKeepsListed(db: Db, run: string, steps: seq<StepSpec>, i: nat)
    requires i <= |steps| && RowsAreListed(db, run, steps)
    ensures RowsAreListed(CreateSteps(db, run, steps, i), run, steps)
    decreases |steps| - i
  {
    if i < |steps| { CreateKeepsListed(CreateStep(db, steps[i].id, run, steps[i].node), run, steps, i + 1); }
  }

  lemma {:induction false} HistoryKeepsListed(db: Db, run: string, steps: seq<StepSpec>, actions: seq<Action>)
    requires RowsAreListed(db, run, steps)
    ensures RowsAreListed(Replay(db, run, steps, actions), run, steps)
    decreases |actions|
  {
    if actions != [] {
      match actions[0] {
        case Walk(plan) => WalkKeepsListed(SetRun(db, run, RunRunning), run, steps, plan.faults, 0);
        case Recreate => CreateKeepsListed(db, run, steps, 0);
        case Reset =>
      }
      HistoryKeepsListed(Act(db, run, steps, actions[0]), run, steps, actions[1..]);
    }
  }

  lemma SettledIsDone(db: Db, run: string, steps: seq<StepSpec>, id: string)
    requires RowsAreListed(db, run, steps) && DistinctNodes(steps) && id in db.steps && db.steps[id].run == run
    ensures Settled(db, id) <==> IsDone(db, id)
  {
  }

  /** When no two steps share a node, every lost body blocks the reset, and only a
      started step that is not SUCCEEDED does. */
  lemma EveryLostBodyBlocks(db: Db, run: string, steps: seq<StepSpec>, actions: seq<Action>)
    requires JustCreated(db, run, steps) && RowsAreListed(db, run, steps) && DistinctNodes(steps)
    ensures
      var now := Replay(db, run, steps, actions);
      && ((exists id :: id in now.calls && !IsDone(now, id)) ==>
            !ResetInterrupted(now, run).1 && ResetInterrupted(now, run).0 == now)
      && (ResetInterrupted(now, run).1
          <==> forall id | id in now.steps && now.steps[id].run == run && id in now.referenced :: IsDone(now, id))
  {
    hide Replay;
    LostBodyBlocksReset(db, run, steps, actions);
    HistoryKeepsListed(db, run, steps, actions);
    var now := Replay(db, run, steps, actions);
    hide ResetInterrupted;
    forall id | id in now.steps && now.steps[id].run == run ensures Settled(now, id) <==> IsDone(now, id) {
      SettledIsDone(now, run, steps, id);
    }
  }

  // ----------------------------------------------------------------- witnesses

  lemma ReplayOne(db: Db, run: string, steps: seq<StepSpec>, a: Action)
    ensures Replay(db, run, steps, [a]) == Act(db, run, steps, a)
  {
    assert Replay(db, run, steps, [a]) == Replay(Act(db, run, steps, a), run, steps, []);
  }

  /** A history with a lost body that blocks: one walk that dies in its first body. */
  lemma LostBody() returns (db: Db, steps: seq<StepSpec>, actions: seq<Action>)
    ensures JustCreated(db, "r", steps) && RowsAreListed(db, "r", steps) && DistinctNodes(steps)
    ensures
      var now := Replay(db, "r", steps, actions);
      now.calls == ["s"] && !IsDone(now, "s") && !ResetInterrupted(now, "r").1
  {
    steps := [StepSpec("s", "n", (v: Value) => v, "")];
    db := Db(map["r" := RunCreated], map["s" := StepRow("r", "n", Pending, None, None)], {}, []);
    assert steps[0].id == "s";
    var walk := Walk(Plan(false, [DiesInBody], false));
    actions := [walk];
    ReplayOne(db, "r", steps, walk);
    var now := Act(db, "r", steps, walk);
    assert now.calls == ["s"];
    EveryLostBodyBlocks(db, "r", steps, actions);
    assert "s" in now.calls;
  }

  function SharedNode(): seq<StepSpec> {
    [StepSpec("s1", "n", (v: Value) => v, ""), StepSpec("s2", "n", (v: Value) => v, "")]
  }

  /** The two rows of that node, by status and output of the first and the second. */
  function Rows(first: StepRow, second: StepRow, run: RunStatus, referenced: set<string>, calls: seq<string>): Db {
    Db(map["r" := run], map["s1" := first, "s2" := second], referenced, calls)
  }

  lemma SharedSteps(run: RunStatus)
    ensures
      var open := StepRow("r", "n", Pending, None, None);
      var done := open.(status := Succeeded, output := Some(""));
      var failed := open.(status := Failed, failure := Some("INTERNAL"));
      && RunStep(Rows(open, open, run, {}, []), SharedNode()[0], NoFault)
         == (Rows(done, open, run, {"s1"}, ["s1"]), Returned(""))
      && RunStep(Rows(done, open, run, {"s1"}, ["s1"]), SharedNode()[1], BodyRaises("INTERNAL"))
         == (Rows(done, failed, run, {"s1", "s2"}, ["s1", "s2"]), Raised("INTERNAL"))
  {
    var open := StepRow("r", "n", Pending, None, None);
    var done := open.(status := Succeeded, output := Some(""));
    var failed := open.(status := Failed, failure := Some("INTERNAL"));
    assert "s1"[1] != "s2"[1];
    var first := RunStep(Rows(open, open, run, {}, []), SharedNode()[0], NoFault).0;
    assert first.steps == map["s1" := done, "s2" := open] && first.referenced == {"s1"} && first.calls == ["s1"];
    var before := Rows(done, open, run, {"s1"}, ["s1"]);
    var second := RunStep(before, SharedNode()[1], BodyRaises("INTERNAL")).0;
    assert second.steps == map["s1" := done, "s2" := failed];
    assert second.referenced == {"s1", "s2"} && second.calls == ["s1", "s2"];
  }

  lemma NodeSettles(db: Db)
    requires db.steps.Keys == {"s1", "s2"} && db.steps["s1"].status == Succeeded && db.steps["s2"].status == Failed
    requires db.steps["s1"].node == db.steps["s2"].node && db.steps["s1"].run == db.steps["s2"].run
    ensures IsDone(db, "s1") && !IsDone(db, "s2") && Settled(db, "s1") && Settled(db, "s2")
    ensures ResetInterrupted(db, db.steps["s1"].run) == (db, true)
  {
    assert IsDone(db, "s1");
    DoomedExactly(db, db.steps["s1"].run, "s1");
    DoomedExactly(db, db.steps["s1"].run, "s2");
    var doomed := Doomed(db, db.steps["s1"].run);
    assert doomed == {} && doomed * db.referenced == {} && db.steps - doomed == db.steps;
  }

  /** A history with a lost body that does not: two steps of one node, the first
      SUCCEEDED, the second FAILED. The reset goes through and leaves both rows. */
  lemma SharedNodeResets() returns (db: Db, steps: seq<StepSpec>, actions: seq<Action>)
    ensures JustCreated(db, "r", steps) && RowsAreListed(db, "r", steps)
    ensures
      var now := Replay(db, "r", steps, actions);
      now.calls == ["s1", "s2"] && IsDone(now, "s1") && !IsDone(now, "s2") && ResetInterrupted(now, "r") == (now, true)
  {
    steps := SharedNode();
    var open := StepRow("r", "n", Pending, None, None);
    db := Rows(open, open, RunCreated, {}, []);
    assert steps[0].id == "s1" && steps[1].id == "s2";
    var faults := [NoFault, BodyRaises("INTERNAL")];
    var walk := Walk(Plan(false, faults, false));
    actions := [walk];
    ReplayOne(db, "r", steps, walk);
    SharedSteps(RunRunning);
    hide RunStep, Settled, ResetInterrupted, Replay;
    var begun := Rows(open, open, RunRunning, {}, []);
    assert SetRun(db, "r", RunRunning) == begun;
    var half := RunStep(begun, steps[0], NoFault).0;
    var now := RunStep(half, steps[1], BodyRaises("INTERNAL")).0;
    assert WalkFrom(half, steps, faults, 1) == (now, false);
    assert WalkFrom(begun, steps, faults, 0) == (now, false);
    NodeSettles(now);
  }
}
