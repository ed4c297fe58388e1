/** The executor and recovery code as it updates the tables, tied statement by
    statement to the specification in `Durable`. */
module DurableStore {
  import opened Base
  import opened Durable
  import opened DurableProofs
  import opened DurableTheorems
  import opened DurableReset

  class Store {
    var runs: map<string, RunStatus>
    var steps: map<string, StepRow>
    var referenced: set<string>
    var calls: seq<string>

    function State(): Db
      reads this
    {
      Db(runs, steps, referenced, calls)
    }

    constructor ()
      ensures State() == Db(map[], map[], {}, [])
    {
      runs, steps, referenced, calls := map[], map[], {}, [];
    }

    /** `create_run`: a run id is inserted once. */
    method CreateRun(run: string) returns (ok: bool)
      modifies this`runs
      ensures ok <==> run !in old(runs)
      ensures ok ==> run in Scan(State()) && runs == old(runs)[run := RunCreated]
      ensures !ok ==> State() == old(State())
      ensures forall r | r != run :: r in Scan(State()) <==> r in old(Scan(State()))
    {
      if run in runs {
        return false;
      }
      runs := runs[run := RunCreated];
      return true;
    }

    /** `create_step`. */
    method CreateStepRow(id: string, run: string, node: string)
      modifies this`steps
      ensures State() == CreateStep(old(State()), id, run, node)
      ensures id in steps && forall k | k in old(steps) :: k in steps && steps[k] == old(steps)[k]
      ensures id !in old(steps) ==> steps[id] == StepRow(run, node, Pending, None, None)
    {
      if id !in steps {
        steps := steps[id := StepRow(run, node, Pending, None, None)];
      }
    }

    method MarkRun(run: string, status: RunStatus)
      modifies this`runs
      ensures State() == SetRun(old(State()), run, status)
    {
      if run in runs {
        runs := runs[run := status];
      }
    }

    /** `run_step`, stopped where the fault says. */
    method ExecuteStep(s: StepSpec, fault: Fault) returns (outcome: Outcome)
      modifies this
      ensures (State(), outcome) == RunStep(old(State()), s, fault)
      ensures outcome.Returned? ==>
                s.id in steps && steps[s.id].status == Succeeded && steps[s.id].output == Some(outcome.output)
      ensures calls == old(calls) || (calls == old(calls) + [s.id] && !old(IsDone(State(), s.id)))
      ensures forall id | id in old(steps) && id != s.id :: id in steps && steps[id] == old(steps)[id]
      ensures outcome.Raised? ==>
                s.id in steps && steps[s.id].status == Failed && steps[s.id].failure == Some(outcome.cls)
    {
      if s.id !in steps {
        return NoRow;
      }
      if steps[s.id].status == Succeeded {
        if steps[s.id].output.None? {
          return NoOutput;
        }
        return Returned(steps[s.id].output.value);
      }
      if fault == DiesBeforeStart {
        return Died;
      }
      steps := steps[s.id := steps[s.id].(status := Running)];
      if fault == DiesAfterStart {
        return Died;
      }
      referenced := referenced + {s.id};
      if fault == DiesBeforeBody {
        return Died;
      }
      calls := calls + [s.id];
      if fault == DiesInBody {
        return Died;
      }
      if fault.BodyRaises? {
        steps := steps[s.id := steps[s.id].(status := Failed, failure := Some(fault.cls))];
        return Raised(fault.cls);
      }
      var output := s.fn(s.input);
      steps := steps[s.id := steps[s.id].(status := Succeeded, output := Some(output))];
      if fault == DiesAfterCommit {
        return Died;
      }
      return Returned(output);
    }

    /** `run_workflow`: mark the run, walk the list, mark the run again. */
    method ExecuteWorkflow(run: string, list: seq<StepSpec>, plan: Plan) returns (completed: bool)
      modifies this
      ensures (State(), completed) == RunWorkflow(old(State()), run, list, plan)
      ensures run in old(runs) ==>
                runs == old(runs)[run := if completed then RunSucceeded
                                         else if plan.diesBeforeRunning then old(runs)[run] else RunRunning]
    {
      if run in runs { WalkMarksRun(State(), run, list, plan); }
      if plan.diesBeforeRunning {
        return false;
      }
      MarkRun(run, RunRunning);
      ghost var begun := State();
      for i := 0 to |list|
        invariant WalkFrom(begun, list, plan.faults, 0) == WalkFrom(State(), list, plan.faults, i)
      {
        var outcome := ExecuteStep(list[i], FaultAt(plan.faults, i));
        if !outcome.Returned? {
          return false;
        }
      }
      if plan.diesBeforeDone {
        return false;
      }
      MarkRun(run, RunSucceeded);
      return true;
    }

    /** `scan_incomplete_runs`. */
    method ScanIncompleteRuns() returns (found: set<string>)
      ensures found == Scan(State())
      ensures forall run | run in runs :: run in found <==>
                runs[run] != RunSucceeded && runs[run] != RunFailed && runs[run] != RunCanceled
    {
      found := set run | run in runs && !IsTerminal(runs[run]);
    }

    /** `reset_interrupted_node_steps`. Deletions are held in `rows` until the
        commit; a DELETE that would leave a dangling reference raises, and the
        uncommitted deletions are dropped. */
    method ResetInterruptedNodeSteps(run: string) returns (committed: bool)
      modifies this`steps
      ensures (State(), committed) == ResetInterrupted(old(State()), run)
      ensures forall id | id in steps :: id in old(steps) && steps[id] == old(steps)[id]
      ensures forall id | id in old(steps) ::
                id in steps <==> committed && old(steps)[id].run == run ==> Settled(old(State()), id)
    {
      ResetDeletesExactly(State(), run);
      hide Settled;
      var succeeded := SucceededNodes(State(), run);
      var nodes := set id | id in steps && steps[id].run == run :: steps[id].node;
      var rows := steps;
      ghost var all := nodes;
      while nodes != {}
        invariant nodes <= all
        invariant all == set id | id in steps && steps[id].run == run :: steps[id].node
        invariant rows == steps - ByNode(State(), run, all - nodes, succeeded)
        invariant forall id | id in ByNode(State(), run, all - nodes, succeeded) :: id !in referenced
        decreases nodes
      {
        var node :| node in nodes;
        nodes := nodes - {node};
        if node !in succeeded {
          var gone := set id | id in rows && rows[id].run == run && rows[id].node == node;
          assert ByNode(State(), run, all - nodes, succeeded)
              == ByNode(State(), run, all - (nodes + {node}), succeeded) + gone;
          if gone * referenced != {} {
            assert gone <= Doomed(State(), run);
            return false;
          }
          forall id | id in gone ensures id !in referenced {
            assert id in referenced ==> id in gone * referenced;
          }
          rows := rows - gone;
        } else {
          assert ByNode(State(), run, all - nodes, succeeded)
              == ByNode(State(), run, all - (nodes + {node}), succeeded);
        }
      }
      var inFlight := set id | id in rows && rows[id].run == run
          && (rows[id].status == Running || rows[id].status == RetryWait);
      assert Doomed(State(), run) == ByNode(State(), run, all - nodes, succeeded) + inFlight;
      if inFlight * referenced != {} {
        return false;
      }
      forall id | id in Doomed(State(), run) ensures id !in referenced {
        assert id in inFlight && id in referenced ==> id in inFlight * referenced;
      }
      assert rows - inFlight == steps - Doomed(State(), run);
      steps := rows - inFlight;
      return true;
    }
  }

  /** The run's rows whose node is one of `nodes` and has no SUCCEEDED attempt. */
  ghost function ByNode(db: Db, run: string, nodes: set<string>, succeeded: set<string>): set<string> {
    set id | id in db.steps && db.steps[id].run == run && db.steps[id].node in nodes && db.steps[id].node !in succeeded
  }
}
