/** Crash refinement, work bound and recovery scan of the durable executor. */
module DurableProofs {
  import opened Base
  import opened Durable

  predicate IsDone(db: Db, id: string) {
    id in db.steps && db.steps[id].status == Succeeded
  }

  function Ids(steps: seq<StepSpec>, k: nat): set<string>
    requires k <= |steps|
  {
    set i | 0 <= i < k :: steps[i].id
  }

  /** The output an id's body computes: that of its first occurrence. */
  function Expected(steps: seq<StepSpec>, id: string): Value
    requires id in Ids(steps, |steps|)
    decreases |steps|
  {
    if steps[0].id == id then steps[0].fn(steps[0].input)
    else
      assert id in Ids(steps[1..], |steps[1..]|) by {
        var i :| 0 <= i < |steps| && steps[i].id == id;
        assert steps[1..][i - 1].id == id;
      }
      Expected(steps[1..], id)
  }

  function Done(db: Db, steps: seq<StepSpec>): set<string> {
    set id | id in Ids(steps, |steps|) && IsDone(db, id)
  }

  /** Every SUCCEEDED listed step recorded what its own body computes. */
  ghost predicate Faithful(db: Db, steps: seq<StepSpec>) {
    forall id | id in Done(db, steps) :: db.steps[id].output == Some(Expected(steps, id))
  }

  /** The SUCCEEDED listed steps are exactly those of a prefix of the list. */
  ghost predicate PrefixDone(db: Db, steps: seq<StepSpec>) {
    exists k | 0 <= k <= |steps| :: Done(db, steps) == Ids(steps, k)
  }

  lemma {:induction false} ExpectedFirst(steps: seq<StepSpec>, i: nat)
    requires i < |steps| && steps[i].id !in Ids(steps, i)
    ensures steps[i].id in Ids(steps, |steps|)
    ensures Expected(steps, steps[i].id) == steps[i].fn(steps[i].input)
    decreases |steps|
  {
    if i > 0 {
      assert steps[0].id in Ids(steps, i);
      forall j | 0 <= j < i - 1 ensures steps[1..][j].id != steps[i].id {
        assert steps[1..][j] == steps[j + 1] && steps[j + 1].id in Ids(steps, i);
      }
      ExpectedFirst(steps[1..], i - 1);
    }
  }

  /** What one walk, or part of one, may change. */
  ghost predicate WalkChanges(db: Db, db': Db, steps: seq<StepSpec>, completed: bool) {
    && db'.steps.Keys == db.steps.Keys
    && (forall id | id in db.steps && id !in Ids(steps, |steps|) :: db'.steps[id] == db.steps[id])
    && (forall id | IsDone(db, id) :: db'.steps[id] == db.steps[id])
    && db.calls <= db'.calls
    && (forall i | |db.calls| <= i < |db'.calls| :: !IsDone(db, db'.calls[i]))
    && Done(db, steps) <= Done(db', steps)
    && |db'.calls| + |Done(db, steps)| <= |db.calls| + |Done(db', steps)| + (if completed then 0 else 1)
  }

  /** No other row changes; a SUCCEEDED row holds what its one call computed. */
  ghost predicate OnlyStep(db: Db, db': Db, s: StepSpec) {
    && db'.steps.Keys == db.steps.Keys
    && (forall id | id in db.steps && id != s.id :: db'.steps[id] == db.steps[id])
    && (IsDone(db', s.id) ==> db'.steps[s.id].output == Some(s.fn(s.input)) && db'.calls == db.calls + [s.id])
    && (db'.calls == db.calls || db'.calls == db.calls + [s.id])
  }

  /** What `run_step` does to a step that is not yet SUCCEEDED. */
  lemma OpenStep(db: Db, s: StepSpec, fault: Fault)
    requires s.id in db.steps && !IsDone(db, s.id)
    ensures
      var (db', outcome) := RunStep(db, s, fault);
      OnlyStep(db, db', s) && db'.runs == db.runs && (outcome.Returned? ==> IsDone(db', s.id))
  {
  }

  lemma StepFacts(db: Db, steps: seq<StepSpec>, i: nat, fault: Fault)
    requires i < |steps| && Faithful(db, steps) && Ids(steps, i) <= Done(db, steps)
    ensures
      var (db', outcome) := RunStep(db, steps[i], fault);
      && Faithful(db', steps)
      && WalkChanges(db, db', steps, outcome.Returned?)
      && db'.runs == db.runs
      && (outcome.Returned? ==> steps[i].id in Done(db', steps))
      && (Done(db', steps) == Done(db, steps) || Done(db', steps) == Done(db, steps) + {steps[i].id})
  {
    var s := steps[i];
    assert s.id in Ids(steps, |steps|);
    if s.id in db.steps && !IsDone(db, s.id) {
      OpenStepFacts(db, steps, i, fault);
    }
  }

  lemma OpenStepDone(db: Db, db': Db, steps: seq<StepSpec>, i: nat)
    requires i < |steps| && OnlyStep(db, db', steps[i]) && !IsDone(db, steps[i].id)
    ensures
      Done(db', steps) == if IsDone(db', steps[i].id) then Done(db, steps) + {steps[i].id} else Done(db, steps)
  {
    assert steps[i].id in Ids(steps, |steps|);
    var done := if IsDone(db', steps[i].id) then Done(db, steps) + {steps[i].id} else Done(db, steps);
    forall id ensures id in Done(db', steps) <==> id in done { }
  }

  lemma OpenStepFaithful(db: Db, db': Db, steps: seq<StepSpec>, i: nat)
    requires i < |steps| && OnlyStep(db, db', steps[i]) && !IsDone(db, steps[i].id)
    requires Faithful(db, steps) && Ids(steps, i) <= Done(db, steps)
    ensures Faithful(db', steps)
  {
    ExpectedFirst(steps, i);
    OpenStepDone(db, db', steps, i);
    forall id | id in Done(db', steps) ensures db'.steps[id].output == Some(Expected(steps, id)) {
      assert id != steps[i].id ==> id in Done(db, steps);
    }
  }

  lemma OpenStepChanges(db: Db, db': Db, steps: seq<StepSpec>, i: nat, returned: bool)
    requires i < |steps| && OnlyStep(db, db', steps[i]) && !IsDone(db, steps[i].id)
    requires returned ==> IsDone(db', steps[i].id)
    ensures WalkChanges(db, db', steps, returned)
  {
    OpenStepDone(db, db', steps, i);
    assert steps[i].id in Ids(steps, |steps|) && steps[i].id !in Done(db, steps);
    hide Done, Ids;
    assert forall k | |db.calls| <= k < |db'.calls| :: db'.calls[k] == steps[i].id;
  }

  lemma OpenStepFacts(db: Db, steps: seq<StepSpec>, i: nat, fault: Fault)
    requires i < |steps| && Faithful(db, steps) && Ids(steps, i) <= Done(db, steps)
    requires steps[i].id in db.steps && !IsDone(db, steps[i].id)
    ensures
      var (db', outcome) := RunStep(db, steps[i], fault);
      && Faithful(db', steps)
      && WalkChanges(db, db', steps, outcome.Returned?)
      && db'.runs == db.runs
      && (outcome.Returned? ==> steps[i].id in Done(db', steps))
      && (Done(db', steps) == Done(db, steps) || Done(db', steps) == Done(db, steps) + {steps[i].id})
  {
    hide RunStep, Faithful, WalkChanges, Done, Ids;
    var (db', outcome) := RunStep(db, steps[i], fault);
    OpenStep(db, steps[i], fault);
    OpenStepDone(db, db', steps, i);
    OpenStepFaithful(db, db', steps, i);
    OpenStepChanges(db, db', steps, i, outcome.Returned?);
  }

  lemma IdsContain(steps: seq<StepSpec>, k: nat)
    requires k <= |steps|
    ensures forall i | 0 <= i < k :: steps[i].id in Ids(steps, k)
  {
  }

  lemma IdsStep(steps: seq<StepSpec>, i: nat)
    requires i < |steps|
    ensures Ids(steps, i + 1) == Ids(steps, i) + {steps[i].id}
  {
  }

  lemma NothingChanges(db: Db, steps: seq<StepSpec>)
    ensures WalkChanges(db, db, steps, true) && WalkChanges(db, db, steps, false)
  {
  }

  lemma ChangesCompose(a: Db, b: Db, c: Db, steps: seq<StepSpec>, completed: bool)
    requires WalkChanges(a, b, steps, true) && WalkChanges(b, c, steps, completed)
    ensures WalkChanges(a, c, steps, completed)
  {
  }

  /** One walk over a database whose SUCCEEDED steps are those of a prefix. */
  lemma {:induction false} WalkFacts(db: Db, steps: seq<StepSpec>, faults: seq<Fault>, i: nat)
    requires i <= |steps| && Faithful(db, steps)
    requires Ids(steps, i) <= Done(db, steps)
    requires PrefixDone(db, steps)
    ensures
      var (db', ok) := WalkFrom(db, steps, faults, i);
      && Faithful(db', steps) && PrefixDone(db', steps)
      && WalkChanges(db, db', steps, ok)
      && db'.runs == db.runs
      && (ok ==> Done(db', steps) == Ids(steps, |steps|))
    decreases |steps| - i
  {
    hide RunStep, WalkChanges, Faithful, PrefixDone;
    NothingChanges(db, steps);
    if i == |steps| {
      IdsContain(steps, i);
      assert Done(db, steps) <= Ids(steps, i);
    } else {
      var (next, outcome) := RunStep(db, steps[i], FaultAt(faults, i));
      StepFacts(db, steps, i, FaultAt(faults, i));
      IdsStep(steps, i);
      StepKeepsPrefix(db, next, steps, i);
      if outcome.Returned? {
        WalkFacts(next, steps, faults, i + 1);
        ChangesCompose(db, next, WalkFrom(next, steps, faults, i + 1).0, steps, WalkFrom(next, steps, faults, i + 1).1);
      }
    }
  }

  lemma StepKeepsPrefix(db: Db, db': Db, steps: seq<StepSpec>, i: nat)
    requires i < |steps| && PrefixDone(db, steps) && Ids(steps, i) <= Done(db, steps)
    requires Done(db', steps) == Done(db, steps) || Done(db', steps) == Done(db, steps) + {steps[i].id}
    ensures PrefixDone(db', steps)
  {
    if Done(db', steps) != Done(db, steps) {
      var k :| 0 <= k <= |steps| && Done(db, steps) == Ids(steps, k);
      IdsContain(steps, k);
      assert Done(db, steps) == Ids(steps, i);
      IdsStep(steps, i);
    }
  }
}
