/** What each call's fate says about what happened to it. */
module RpcFates {
  import opened Base
  import opened Rpc
  import opened RpcTheorems

  // ----------------------------------------------------------------- whole inputs

  predicate AnswersLine(table: set<string>, line: Line, handler: Handler, output: Output) {
    match line
    case NotJson => output == Response(None, Error(-32700, "parse error"))
    case Request(id, op, _) => output.Response? && output.id == id && BodyTells(table, op, handler, output.body)
    case _ => false
  }

  /** Every line that is not blank has exactly one answer, in the order of the lines;
      `at[k]` is the line that the k-th output answers. */
  predicate AnsweredAt(
    table: set<string>, lines: seq<Line>, handlers: seq<Handler>, written: seq<Output>, at: seq<nat>)
    requires |handlers| == |lines|
  {
    && |at| == |written|
    && (forall k | 0 <= k < |at| :: at[k] < |lines| && AnswersLine(table, lines[at[k]], handlers[at[k]], written[k]))
    && (forall j, k | 0 <= j < k < |at| :: at[j] < at[k])
    && (forall i | 0 <= i < |lines| :: lines[i] != Blank <==> i in at)
  }

  lemma BlankAdded(table: set<string>, lines: seq<Line>, handlers: seq<Handler>, written: seq<Output>, at: seq<nat>)
    requires |handlers| == |lines| > 0 && lines[|lines| - 1] == Blank
    requires AnsweredAt(table, lines[..|lines| - 1], handlers[..|lines| - 1], written, at)
    ensures AnsweredAt(table, lines, handlers, written, at)
  {
    hide AnswersLine;
    forall i | 0 <= i < |lines| - 1 ensures lines[..|lines| - 1][i] == lines[i] { }
  }

  lemma LineAdded(table: set<string>, lines: seq<Line>, handlers: seq<Handler>, written: seq<Output>, at: seq<nat>,
      output: Output)
    requires |handlers| == |lines| > 0
    requires AnsweredAt(table, lines[..|lines| - 1], handlers[..|lines| - 1], written, at)
    requires AnswersLine(table, lines[|lines| - 1], handlers[|lines| - 1], output)
    ensures AnsweredAt(table, lines, handlers, written + [output], at + [|lines| - 1])
  {
    var n := |lines| - 1;
    assert lines[n] != Blank;
    hide AnswersLine;
    forall i | 0 <= i < n ensures lines[..n][i] == lines[i] { }
    forall i | 0 <= i < |lines| ensures lines[i] != Blank <==> i in at + [n] {
      assert (at + [n])[|at|] == n;
    }
  }

  lemma HandlesAsTold(table: set<string>, line: Line, handler: Handler)
    requires line != NotObject
    ensures
      var handling := HandleRequest(table, line, handler);
      if line == Blank then handling == Skips
      else handling.Writes? && AnswersLine(table, line, handler, handling.output)
  {
  }

  /** A whole input without a stray JSON value is answered line by line. */
  lemma {:induction false} AnswersEachLine(table: set<string>, lines: seq<Line>, handlers: seq<Handler>)
    returns (at: seq<nat>)
    requires |handlers| == |lines| && NotObject !in lines
    ensures AnsweredAt(table, lines, handlers, Answers(table, lines, handlers), at)
    decreases |lines|
  {
    hide AnsweredAt, HandleRequest, AnswersLine;
    if lines == [] {
      at := [];
      assert AnsweredAt(table, lines, handlers, [], []) by { NothingAnswered(table); }
    } else {
      var n := |lines| - 1;
      at := AnswersEachLine(table, lines[..n], handlers[..n]);
      var written := Answers(table, lines[..n], handlers[..n]);
      assert lines[n] in lines;
      HandlesAsTold(table, lines[n], handlers[n]);
      if lines[n] == Blank {
        BlankAdded(table, lines, handlers, written, at);
        assert written + [] == written;
      } else {
        LineAdded(table, lines, handlers, written, at, HandleRequest(table, lines[n], handlers[n]).output);
        at := at + [n];
      }
    }
  }

  lemma NothingAnswered(table: set<string>)
    ensures AnsweredAt(table, [], [], [], [])
  {
  }

  // ------------------------------------------------------------------- histories

  lemma {:induction false} RunAppends(w: World, steps: seq<Step>, step: Step)
    ensures Run(w, steps + [step]) == Apply(Run(w, steps), step)
    decreases |steps|
  {
    hide Apply;
    if steps == [] {
      assert Run(w, [step]) == Run(Apply(w, step), []);
    } else {
      assert (steps + [step])[1..] == steps[1..] + [step];
      RunAppends(Apply(w, steps[0]), steps[1..], step);
    }
  }

  /** The world just before the n-th step. */
  function Before(table: set<string>, steps: seq<Step>, n: nat): World
    requires n <= |steps|
  {
    Run(Start(table), steps[..n])
  }

  lemma BeforeNext(table: set<string>, steps: seq<Step>, n: nat)
    requires n < |steps|
    ensures Before(table, steps, n + 1) == Apply(Before(table, steps, n), steps[n])
  {
    assert steps[..n + 1] == steps[..n] + [steps[n]];
    RunAppends(Start(table), steps[..n], steps[n]);
  }

  /** The n-th step serves this request. */
  predicate ServedAt(table: set<string>, steps: seq<Step>, n: nat, request: Line) {
    && n < |steps| && steps[n].Serve?
    && Before(table, steps, n).alive && Before(table, steps, n).toServer != []
    && Before(table, steps, n).toServer[0] == request
  }

  lemma ApplyServes(w: World, step: Step)
    requires Inv(w)
    ensures
      var w' := Apply(w, step);
      && w'.table == w.table && w.served <= w'.served && |w'.served| <= |w.served| + 1
      && (|w'.served| > |w.served| ==>
            && step.Serve? && w.alive && w.toServer != [] && w.toServer[0].Request?
            && w'.served[|w.served|].request == w.toServer[0]
            && BodyTells(w.table, w.toServer[0].op, step.handler, w'.served[|w.served|].body))
  {
  }

  lemma BeforeIsReachable(table: set<string>, steps: seq<Step>, n: nat)
    requires n <= |steps|
    ensures Inv(Before(table, steps, n)) && Before(table, steps, n).table == table
    decreases n
  {
    hide Run, Apply, Inv;
    if n == 0 {
      StartIsSound(table);
      assert steps[..0] == [];
      NothingRun(Start(table));
    } else {
      BeforeIsReachable(table, steps, n - 1);
      BeforeNext(table, steps, n - 1);
      ApplyServes(Before(table, steps, n - 1), steps[n - 1]);
      ApplyKeeps(Before(table, steps, n - 1), steps[n - 1]);
    }
  }

  lemma StartIsSound(table: set<string>)
    ensures Inv(Start(table))
  {
  }

  /** Every dispatch that is on record was made by one step, with its handler. */
  lemma {:induction false} ServedByAStep(table: set<string>, steps: seq<Step>, n: nat, j: nat) returns (at: nat)
    requires n <= |steps| && j < |Before(table, steps, n).served|
    ensures
      var s := Before(table, steps, n).served[j];
      && at < n && ServedAt(table, steps, at, s.request) && s.request.Request?
      && BodyTells(table, s.request.op, steps[at].handler, s.body)
    decreases n
  {
    hide Run, Apply, Inv, BodyTells;
    if n == 0 {
      NothingBefore(table, steps);
    } else {
      var before := Before(table, steps, n - 1);
      BeforeIsReachable(table, steps, n - 1);
      BeforeNext(table, steps, n - 1);
      ApplyServes(before, steps[n - 1]);
      if j < |before.served| {
        at := ServedByAStep(table, steps, n - 1, j);
      } else {
        at := n - 1;
      }
    }
  }

  lemma NothingRun(w: World)
    ensures Run(w, []) == w
  {
  }

  lemma NothingBefore(table: set<string>, steps: seq<Step>)
    ensures Before(table, steps, 0).served == [] && Before(table, steps, 0).client.log == []
  {
    assert steps[..0] == [];
  }

  /** How a step may add to the client's settlements. */
  predicate SettledNow(w: World, step: Step, s: Settlement) {
    && s.id in w.client.pending
    && match s.fate
       case TimedOut => step == TimerFires(s.id)
       case Exited => step == ExitSeen
       case TransportFailed => step == TransportBreaks
       case _ => step == ReadLine
  }

  lemma ApplySettles(w: World, step: Step, k: nat)
    requires Inv(w) && |w.client.log| <= k < |Apply(w, step).client.log|
    ensures SettledNow(w, step, Apply(w, step).client.log[k])
  {
    if step == ExitSeen || step == TransportBreaks {
      var fate := if step == ExitSeen then Exited else TransportFailed;
      RejectionsAre(w.client.pending, w.client.nextId, fate);
      var more := Rejections(w.client.pending, w.client.nextId, fate);
      assert Settled(more, more[k - |w.client.log|].id);
    }
  }

  /** Every settlement was made by one step, while the call was pending. */
  lemma {:induction false} SettledByAStep(table: set<string>, steps: seq<Step>, n: nat, k: nat) returns (at: nat)
    requires n <= |steps| && k < |Before(table, steps, n).client.log|
    ensures at < n && SettledNow(Before(table, steps, at), steps[at], Before(table, steps, n).client.log[k])
    decreases n
  {
    hide Run, Apply, Inv, SettledNow;
    if n == 0 {
      NothingBefore(table, steps);
    } else {
      var before := Before(table, steps, n - 1);
      BeforeIsReachable(table, steps, n - 1);
      BeforeNext(table, steps, n - 1);
      LogGrows(before, steps[n - 1]);
      if k < |before.client.log| {
        at := SettledByAStep(table, steps, n - 1, k);
      } else {
        at := n - 1;
        ApplySettles(before, steps[n - 1], k);
      }
    }
  }

  lemma LogGrows(w: World, step: Step)
    ensures w.client.log <= Apply(w, step).client.log
  {
  }

  /** A call's fate tells what happened to it, over every history. It timed out only
      when its own timer fired, and was rejected with the transport only when that
      ended or failed, each time while it was pending. Otherwise one step served the
      very request that was issued, and its fate is: what the handler returned, if
      the method is in the table; -32601 if it is not; the code and message the
      handler raised; or -32000 with the message of any other exception. */
  lemma FateTellsWhatHappened(table: set<string>, steps: seq<Step>, k: nat) returns (at: nat)
    requires k < |Run(Start(table), steps).client.log|
    ensures
      var w := Run(Start(table), steps);
      var s := w.client.log[k];
      && at < |steps| && 1 <= s.id <= |w.issued| && w.issued[s.id - 1].Request?
      && match s.fate
         case TimedOut => steps[at] == TimerFires(s.id) && s.id in Before(table, steps, at).client.pending
         case Exited => steps[at] == ExitSeen && s.id in Before(table, steps, at).client.pending
         case TransportFailed => steps[at] == TransportBreaks && s.id in Before(table, steps, at).client.pending
         case _ =>
           && ServedAt(table, steps, at, w.issued[s.id - 1])
           && FateTells(table, w.issued[s.id - 1].op, steps[at].handler, s.fate)
  {
    hide Run, Apply, Inv;
    assert steps[..|steps|] == steps;
    var w := Before(table, steps, |steps|);
    var s := w.client.log[k];
    BeforeIsReachable(table, steps, |steps|);
    SettledWasIssued(w, k);
    if IsReply(s.fate) {
      var j := ReplyIsServed(w, k);
      at := ServedByAStep(table, steps, |steps|, j);
    } else {
      at := SettledByAStep(table, steps, |steps|, k);
    }
  }

  lemma SettledWasIssued(w: World, k: nat)
    requires Inv(w) && k < |w.client.log|
    ensures 1 <= w.client.log[k].id <= |w.issued| && w.issued[w.client.log[k].id - 1].Request?
  {
    assert Settled(w.client.log, w.client.log[k].id);
    assert Issued(w.issued, w.issued[w.client.log[k].id - 1]);
  }

  lemma ReplyIsServed(w: World, k: nat) returns (j: nat)
    requires Inv(w) && k < |w.client.log| && IsReply(w.client.log[k].fate)
    ensures 1 <= w.client.log[k].id <= |w.issued|
    ensures j < |w.served| && w.served[j].request == w.issued[w.client.log[k].id - 1]
    ensures FateOf(w.served[j].body) == w.client.log[k].fate
  {
    SettledWasIssued(w, k);
    var s := w.client.log[k];
    var body :| AnswerOf(w.served, s.id, body) && FateOf(body) == s.fate;
    j :| 0 <= j < |w.served| && w.served[j].request.Request? && w.served[j].request.id == Some(s.id)
         && w.served[j].body == body;
    assert Issued(w.issued, w.served[j].request);
  }
}
