/** What every history of calls, answers, losses and time-outs keeps. */
module RpcTheorems {
  import opened Base
  import opened Rpc

  // ---------------------------------------------------------------- one request

  /** What a request is answered, by its method and by how its handler ended. */
  predicate BodyTells(table: set<string>, op: string, handler: Handler, body: Body) {
    if op !in table then body == Error(-32601, "unknown method: " + op)
    else
      match handler
      case Returns(value) => body == Result(value)
      case RaisesRpc(code, message) => body == Error(code, message)
      case Raises(message) => body == Error(-32000, message)
  }

  /** What the promise of that call ends with. */
  predicate FateTells(table: set<string>, op: string, handler: Handler, fate: Fate) {
    if op !in table then fate == Refused(-32601, "unknown method: " + op)
    else
      match handler
      case Returns(value) => fate == Resolved(value)
      case RaisesRpc(code, message) => fate == Refused(code, message)
      case Raises(message) => fate == Refused(-32000, message)
  }

  // ------------------------------------------------------------------- the books

  predicate Settled(log: seq<Settlement>, id: Id) {
    exists k | 0 <= k < |log| :: log[k].id == id
  }

  predicate NoneTwice(log: seq<Settlement>) {
    forall j, k | 0 <= j < k < |log| :: log[j].id != log[k].id
  }

  /** Every id handed out is pending or settled, never both, settled once. */
  ghost predicate Accounted(c: Client) {
    && c.nextId >= 1 && c.timers == c.pending.Keys
    && (forall id: Id :: 1 <= id < c.nextId <==> id in c.pending || Settled(c.log, id))
    && (forall id | id in c.pending :: !Settled(c.log, id))
    && NoneTwice(c.log)
  }

  predicate IsReply(fate: Fate) {
    fate.Resolved? || fate.Refused?
  }

  predicate AnswerOf(served: seq<Served>, id: Id, body: Body) {
    exists k | 0 <= k < |served| :: served[k].request.Request? && served[k].request.id == Some(id)
        && served[k].body == body
  }

  /** The responses among what was written, noise left out. */
  function Responses(written: seq<Output>): seq<Output> {
    if written == [] then []
    else
      var n := |written| - 1;
      Responses(written[..n]) + if written[n].Response? then [written[n]] else []
  }

  function AsOutputs(served: seq<Served>): seq<Output> {
    seq(|served|, k requires 0 <= k < |served| =>
      Response(if served[k].request.Request? then served[k].request.id else None, served[k].body))
  }

  /** `line` is the request that was issued under its own id. */
  predicate Issued(issued: seq<Line>, line: Line) {
    line.Request? && line.id.Some? && 1 <= line.id.value <= |issued| && issued[line.id.value - 1] == line
  }

  predicate Increasing(lines: seq<Line>) {
    forall j, k | 0 <= j < k < |lines| ::
      lines[j].Request? && lines[k].Request? && lines[j].id.Some? && lines[k].id.Some?
          && lines[j].id.value < lines[k].id.value
  }

  function Requests(served: seq<Served>): seq<Line> {
    seq(|served|, k requires 0 <= k < |served| => served[k].request)
  }

  /** Requests are numbered as they are issued. */
  predicate Numbered(w: World) {
    && |w.issued| == w.client.nextId - 1
    && forall k | 0 <= k < |w.issued| :: Issued(w.issued, w.issued[k]) && w.issued[k].id == Some(k + 1)
  }

  /** The answer is what some run of the request's handler gives. */
  ghost predicate Dispatched(table: set<string>, s: Served) {
    s.request.Request? && exists handler :: BodyTells(table, s.request.op, handler, s.body)
  }

  /** The server has dispatched, and will find, issued requests in issue order. */
  ghost predicate InOrder(w: World) {
    && (forall k | 0 <= k < |w.toServer| :: Issued(w.issued, w.toServer[k]))
    && (forall k | 0 <= k < |w.served| :: Issued(w.issued, w.served[k].request))
    && (forall k | 0 <= k < |w.served| :: Dispatched(w.table, w.served[k]))
    && Increasing(Requests(w.served) + w.toServer)
  }

  /** What is on the way to the client is what was dispatched, in that order. */
  predicate Answered(w: World) {
    && Responses(w.written) == AsOutputs(w.served) && w.read <= |w.written|
    && forall k | 0 <= k < |w.written| && w.written[k].Response? ::
         w.written[k].id.Some? && AnswerOf(w.served, w.written[k].id.value, w.written[k].body)
  }

  /** Every call settled by a reply was settled by its own. */
  ghost predicate Explained(w: World) {
    forall k | 0 <= k < |w.client.log| && IsReply(w.client.log[k].fate) ::
      exists body :: AnswerOf(w.served, w.client.log[k].id, body) && FateOf(body) == w.client.log[k].fate
  }

  ghost predicate Inv(w: World) {
    Accounted(w.client) && Numbered(w) && InOrder(w) && Answered(w) && Explained(w)
  }

  // ---------------------------------------------------------------- the client

  lemma SettledConcat(a: seq<Settlement>, b: seq<Settlement>, id: Id)
    ensures Settled(a + b, id) <==> Settled(a, id) || Settled(b, id)
  {
    if Settled(a, id) {
      var k :| 0 <= k < |a| && a[k].id == id;
      assert (a + b)[k].id == id;
    }
    if Settled(b, id) {
      var k :| 0 <= k < |b| && b[k].id == id;
      assert (a + b)[|a| + k].id == id;
    }
  }

  lemma NoneTwiceConcat(a: seq<Settlement>, b: seq<Settlement>)
    requires NoneTwice(a) && NoneTwice(b) && forall id | Settled(a, id) :: !Settled(b, id)
    ensures NoneTwice(a + b)
  {
    forall j, k | 0 <= j < k < |a + b| ensures (a + b)[j].id != (a + b)[k].id {
      if j < |a| { assert Settled(a, a[j].id); }
      if k >= |a| { assert (a + b)[k] == b[k - |a|]; }
    }
  }

  /** Settling pending calls keeps the books, however many and in whatever order. */
  lemma SettlingKeeps(c: Client, c': Client, more: seq<Settlement>)
    requires Accounted(c) && NoneTwice(more) && forall id | Settled(more, id) :: id in c.pending
    requires c'.nextId == c.nextId && c'.log == c.log + more && c'.timers == c'.pending.Keys
    requires forall id: Id :: id in c'.pending <==> id in c.pending && !Settled(more, id)
    ensures Accounted(c')
  {
    forall id: Id ensures Settled(c'.log, id) <==> Settled(c.log, id) || Settled(more, id) {
      SettledConcat(c.log, more, id);
    }
    NoneTwiceConcat(c.log, more);
  }

  lemma SettleKeeps(c: Client, id: Id, fate: Fate)
    requires Accounted(c) && id in c.pending
    ensures Accounted(Settle(c, id, fate))
  {
    var one := [Settlement(id, fate)];
    assert one[0].id == id;
    SettlingKeeps(c, Settle(c, id, fate), one);
  }

  lemma RegisterKeeps(c: Client, op: string)
    requires Accounted(c)
    ensures Accounted(Register(c, op))
  {
  }

  predicate OldestFirst(log: seq<Settlement>) {
    forall j, k | 0 <= j < k < |log| :: log[j].id < log[k].id
  }

  lemma OneMoreIsOldestFirst(log: seq<Settlement>, more: Settlement)
    requires OldestFirst(log) && forall id: Id | Settled(log, id) :: id < more.id
    ensures OldestFirst(log + [more])
  {
    forall k | 0 <= k < |log| ensures log[k].id < more.id { assert Settled(log, log[k].id); }
  }

  lemma OldestFirstIsNoneTwice(log: seq<Settlement>)
    requires OldestFirst(log)
    ensures NoneTwice(log)
  {
  }

  lemma SettledByOneMore(log: seq<Settlement>, more: Settlement, id: Id)
    ensures Settled(log + [more], id) <==> Settled(log, id) || id == more.id
  {
    SettledConcat(log, [more], id);
    assert [more][0] == more;
  }

  lemma {:induction false} RejectionsAre(pending: map<Id, string>, n: nat, fate: Fate)
    ensures forall id: Id :: Settled(Rejections(pending, n, fate), id) <==> id in pending && id < n
    ensures NoneTwice(Rejections(pending, n, fate)) && OldestFirst(Rejections(pending, n, fate))
    ensures forall k | 0 <= k < |Rejections(pending, n, fate)| :: Rejections(pending, n, fate)[k].fate == fate
  {
    hide NoneTwice;
    if n > 0 {
      RejectionsAre(pending, n - 1, fate);
      hide Settled, OldestFirst;
      if n - 1 in pending {
        var before, more := Rejections(pending, n - 1, fate), Settlement(n - 1, fate);
        forall id: Id ensures Settled(before + [more], id) <==> Settled(before, id) || id == n - 1 {
          SettledByOneMore(before, more, id);
        }
        OneMoreIsOldestFirst(before, more);
      } else {
        assert Rejections(pending, n, fate) == Rejections(pending, n - 1, fate);
      }
    }
    OldestFirstIsNoneTwice(Rejections(pending, n, fate));
  }

  lemma RejectAllKeeps(c: Client, fate: Fate)
    requires Accounted(c)
    ensures Accounted(RejectAll(c, fate))
  {
    RejectionsAre(c.pending, c.nextId, fate);
    SettlingKeeps(c, RejectAll(c, fate), Rejections(c.pending, c.nextId, fate));
  }

  // ----------------------------------------------------------------- each step

  lemma CallKeeps(w: World, op: string, params: Value, lost: bool)
    requires Inv(w)
    ensures Inv(Apply(w, Call(op, params, lost)))
  {
    var w' := Apply(w, Call(op, params, lost));
    var request := Request(Some(w.client.nextId), op, params);
    RegisterKeeps(w.client, op);
    hide Accounted, Answered, AnswerOf, Dispatched;
    assert Answered(w') by { SameAnswers(w, w'); }
    assert forall line | Issued(w.issued, line) :: Issued(w'.issued, line);
    assert Requests(w.served) + (w.toServer + [request]) == (Requests(w.served) + w.toServer) + [request];
    forall k | 0 <= k < |Requests(w.served) + w.toServer|
      ensures Issued(w.issued, (Requests(w.served) + w.toServer)[k])
    {
    }
  }

  lemma SameAnswers(w: World, w': World)
    requires Answered(w) && w'.served == w.served && w'.written == w.written && w'.read == w.read
    ensures Answered(w')
  {
  }

  lemma AnswersStay(served: seq<Served>, more: Served, id: Id, body: Body)
    requires AnswerOf(served, id, body)
    ensures AnswerOf(served + [more], id, body)
  {
    var k :| 0 <= k < |served| && served[k].request.Request? && served[k].request.id == Some(id)
        && served[k].body == body;
    assert (served + [more])[k] == served[k];
  }

  lemma ServeKeeps(w: World, handler: Handler)
    requires Inv(w) && w.alive && w.toServer != []
    ensures Inv(Apply(w, Serve(handler)))
  {
    var w' := Apply(w, Serve(handler));
    var line := w.toServer[0];
    assert Issued(w.issued, line);
    var body := Dispatch(w.table, line.op, handler);
    var more := Served(line, body);
    assert w' == w.(toServer := w.toServer[1..], written := w.written + [Response(line.id, body)],
        served := w.served + [more]);
    forall id, b | AnswerOf(w.served, id, b) ensures AnswerOf(w'.served, id, b) { AnswersStay(w.served, more, id, b); }
    assert AnswerOf(w'.served, line.id.value, body) by { assert w'.served[|w.served|] == more; }
    assert BodyTells(w.table, line.op, handler, body);
    assert Dispatched(w.table, more);
    hide AnswerOf, Dispatched, Accounted, IsReply, FateOf;
    assert w'.written[..|w.written|] == w.written;
    assert AsOutputs(w'.served) == AsOutputs(w.served) + [Response(line.id, body)];
    assert Requests(w'.served) + w'.toServer == Requests(w.served) + w.toServer;
    assert InOrder(w');
    assert Answered(w');
  }

  lemma StrayKeeps(w: World)
    requires Inv(w)
    ensures Inv(Apply(w, Stray))
  {
  }

  lemma SameOrder(w: World, w': World)
    requires InOrder(w)
    requires w'.table == w.table && w'.issued == w.issued && w'.toServer == w.toServer && w'.served == w.served
    ensures InOrder(w')
  {
  }

  lemma ReadKeeps(w: World)
    requires Inv(w) && w.read < |w.written|
    ensures Inv(Apply(w, ReadLine))
  {
    var w' := Apply(w, ReadLine);
    var output := w.written[w.read];
    SameOrder(w, w');
    if output.Response? && output.id.value in w.client.pending {
      SettleKeeps(w.client, output.id.value, FateOf(output.body));
    }
    hide AnswerOf, Accounted, InOrder, Responses;
  }

  lemma TimerKeeps(w: World, id: Id)
    requires Inv(w)
    ensures Inv(Apply(w, TimerFires(id)))
  {
    if id in w.client.timers {
      SettleKeeps(w.client, id, TimedOut);
      var w' := Apply(w, TimerFires(id));
      SameOrder(w, w');
      hide AnswerOf, Accounted, InOrder, Responses;
    }
  }

  lemma BreakKeeps(w: World, fate: Fate)
    requires Inv(w) && !IsReply(fate)
    ensures Inv(w.(client := RejectAll(w.client, fate)))
  {
    var w' := w.(client := RejectAll(w.client, fate));
    RejectAllKeeps(w.client, fate);
    RejectionsAre(w.client.pending, w.client.nextId, fate);
    SameOrder(w, w');
    hide AnswerOf, Accounted, InOrder, Responses, Rejections;
  }

  lemma ApplyKeeps(w: World, step: Step)
    requires Inv(w)
    ensures Inv(Apply(w, step))
  {
    match step
    case Call(op, params, lost) => CallKeeps(w, op, params, lost);
    case Serve(handler) => if w.alive && w.toServer != [] { ServeKeeps(w, handler); }
    case Stray => StrayKeeps(w);
    case ServerEnds =>
    case ReadLine => if w.read < |w.written| { ReadKeeps(w); }
    case TimerFires(id) => TimerKeeps(w, id);
    case ExitSeen => BreakKeeps(w, Exited);
    case TransportBreaks => BreakKeeps(w, TransportFailed);
  }

  lemma {:induction false} RunKeeps(w: World, steps: seq<Step>)
    requires Inv(w)
    ensures Inv(Run(w, steps)) && w.client.log <= Run(w, steps).client.log
    decreases |steps|
  {
    hide Inv;
    if steps != [] {
      ApplyKeeps(w, steps[0]);
      RunKeeps(Apply(w, steps[0]), steps[1..]);
    }
  }

  ghost predicate Reachable(w: World) {
    exists table, steps :: Run(Start(table), steps) == w
  }

  lemma ReachableKeepsInv(w: World)
    requires Reachable(w)
    ensures Inv(w)
  {
    var table, steps :| Run(Start(table), steps) == w;
    RunKeeps(Start(table), steps);
  }

  // ---------------------------------------------------------------- the results

  /** Each call is settled at most once, in every history: an id that was handed
      out is either still pending, with its timer running, or settled, once. */
  lemma SettledAtMostOnce(w: World, id: Id)
    requires Reachable(w)
    ensures 1 <= id <= |w.issued| <==> id in w.client.pending || Settled(w.client.log, id)
    ensures !(id in w.client.pending && Settled(w.client.log, id))
    ensures id in w.client.timers <==> id in w.client.pending
    ensures forall j, k | 0 <= j < |w.client.log| && 0 <= k < |w.client.log|
        && w.client.log[j].id == w.client.log[k].id :: j == k
  {
    ReachableKeepsInv(w);
  }

  /** A call settled by a reply was dispatched exactly once, with the method and
      parameters it was issued with, and got what that dispatch answered: its fate is
      the one its method and some way for the handler to end lead to. */
  lemma SettledByItsOwnReply(w: World, k: nat)
    requires Reachable(w) && k < |w.client.log| && IsReply(w.client.log[k].fate)
    ensures
      var id := w.client.log[k].id;
      1 <= id <= |w.issued| &&
      exists j | 0 <= j < |w.served| ::
        && w.served[j].request == w.issued[id - 1] && FateOf(w.served[j].body) == w.client.log[k].fate
        && (forall i | 0 <= i < |w.served| && w.served[i].request.Request? && w.served[i].request.id == Some(id) ::
            i == j)
    ensures
      var request := w.issued[w.client.log[k].id - 1];
      request.Request? && exists handler :: FateTells(w.table, request.op, handler, w.client.log[k].fate)
  {
    ReachableKeepsInv(w);
    var s := w.client.log[k];
    var body :| AnswerOf(w.served, s.id, body) && FateOf(body) == s.fate;
    var j :| 0 <= j < |w.served| && w.served[j].request.Request? && w.served[j].request.id == Some(s.id)
        && w.served[j].body == body;
    hide Answered, Explained, AnswerOf, Accounted;
    assert Dispatched(w.table, w.served[j]) && Issued(w.issued, w.served[j].request);
    var handler :| BodyTells(w.table, w.served[j].request.op, handler, w.served[j].body);
    assert FateTells(w.table, w.served[j].request.op, handler, s.fate);
    forall i | 0 <= i < |w.served| && w.served[i].request.Request? && w.served[i].request.id == Some(s.id)
      ensures i == j
    {
      var line := Requests(w.served) + w.toServer;
      assert line[i] == w.served[i].request && line[j] == w.served[j].request;
      assert Increasing(line);
    }
  }

  /** Responses leave in request order, one for each request dispatched. */
  lemma ResponsesInRequestOrder(w: World)
    requires Reachable(w)
    ensures Responses(w.written) == AsOutputs(w.served)
    ensures forall j, k | 0 <= j < k < |w.served| ::
              && w.served[j].request.Request? && w.served[k].request.Request?
              && w.served[j].request.id.Some? && w.served[k].request.id.Some?
              && w.served[j].request.id.value < w.served[k].request.id.value
    ensures forall k | 0 <= k < |w.served| :: w.served[k].request in w.issued
  {
    ReachableKeepsInv(w);
    forall j, k | 0 <= j < k < |w.served|
      ensures w.served[j].request.Request? && w.served[k].request.Request?
        && w.served[j].request.id.Some? && w.served[k].request.id.Some?
        && w.served[j].request.id.value < w.served[k].request.id.value
    {
      var lines := Requests(w.served) + w.toServer;
      assert lines[j] == w.served[j].request && lines[k] == w.served[k].request;
    }
    forall k | 0 <= k < |w.served| ensures w.served[k].request in w.issued {
      assert Issued(w.issued, w.served[k].request);
    }
  }

  /** Settled is settled: whatever comes after, late replies included, adds no
      second settlement of the same call and changes none. */
  lemma LateRepliesDropped(w: World, later: seq<Step>, id: Id)
    requires Reachable(w) && Settled(w.client.log, id)
    ensures
      var log := Run(w, later).client.log;
      && w.client.log <= log
      && forall k | |w.client.log| <= k < |log| :: log[k].id != id
  {
    ReachableKeepsInv(w);
    RunKeeps(w, later);
    var j :| 0 <= j < |w.client.log| && w.client.log[j].id == id;
    assert Run(w, later).client.log[j] == w.client.log[j];
  }

  /** After the transport exits or fails, nothing is pending, no timer runs, and
      every call ever issued has been settled, those that were pending just now and
      oldest first. */
  lemma ExitLeavesNothingPending(w: World, step: Step, id: Id)
    requires Reachable(w) && (step == ExitSeen || step == TransportBreaks)
    ensures
      var c := Apply(w, step).client;
      && c.pending == map[] && c.timers == {}
      && (1 <= id <= |w.issued| <==> Settled(c.log, id))
      && w.client.log <= c.log && OldestFirst(c.log[|w.client.log|..])
  {
    ReachableKeepsInv(w);
    ApplyKeeps(w, step);
    var fate := if step == ExitSeen then Exited else TransportFailed;
    RejectionsAre(w.client.pending, w.client.nextId, fate);
    assert Apply(w, step).client.log[|w.client.log|..] == Rejections(w.client.pending, w.client.nextId, fate);
  }

  // ------------------------------------------------------------- undisturbed calls

  predicate IsRequestOf(line: Line, id: Id) {
    line.Request? && line.id == Some(id)
  }

  predicate IsAnswerTo(output: Output, id: Id) {
    output.Response? && output.id == Some(id)
  }

  predicate InServerQueue(w: World, id: Id) {
    exists k | 0 <= k < |w.toServer| :: IsRequestOf(w.toServer[k], id)
  }

  predicate Unread(w: World, id: Id) {
    exists k | w.read <= k < |w.written| :: IsAnswerTo(w.written[k], id)
  }

  predicate Replied(c: Client, id: Id) {
    exists k | 0 <= k < |c.log| :: c.log[k].id == id && IsReply(c.log[k].fate)
  }

  /** The request or its answer is on the way, or the call was settled by a reply. */
  predicate OnItsWay(w: World, id: Id) {
    (id in w.client.pending && (InServerQueue(w, id) || Unread(w, id))) || Replied(w.client, id)
  }

  /** The call's own timer does not fire, and the transport does not break. */
  predicate Disturbs(step: Step, id: Id) {
    step == TimerFires(id) || step == ExitSeen || step == TransportBreaks
  }

  lemma RepliedStays(c: Client, c': Client, id: Id)
    requires c.log <= c'.log && Replied(c, id)
    ensures Replied(c', id)
  {
    var k :| 0 <= k < |c.log| && c.log[k].id == id && IsReply(c.log[k].fate);
    assert c'.log[k] == c.log[k];
  }

  lemma CallOnItsWay(w: World, op: string, params: Value, lost: bool, id: Id)
    requires id in w.client.pending && (InServerQueue(w, id) || Unread(w, id))
    ensures OnItsWay(Apply(w, Call(op, params, lost)), id)
  {
    var w' := Apply(w, Call(op, params, lost));
    if InServerQueue(w, id) {
      var k :| 0 <= k < |w.toServer| && IsRequestOf(w.toServer[k], id);
      assert w'.toServer[k] == w.toServer[k];
    } else {
      assert Unread(w', id);
    }
  }

  lemma WrittenStaysUnread(w: World, w': World, id: Id)
    requires w.written <= w'.written && w'.read == w.read && Unread(w, id)
    ensures Unread(w', id)
  {
    var k :| w.read <= k < |w.written| && IsAnswerTo(w.written[k], id);
    assert w'.written[k] == w.written[k];
  }

  lemma ServeOnItsWay(w: World, handler: Handler, id: Id)
    requires Inv(w) && w.alive && w.toServer != [] && id in w.client.pending && (InServerQueue(w, id) || Unread(w, id))
    ensures OnItsWay(Apply(w, Serve(handler)), id)
  {
    var w' := Apply(w, Serve(handler));
    assert Issued(w.issued, w.toServer[0]);
    if Unread(w, id) {
      WrittenStaysUnread(w, w', id);
    } else {
      var k :| 0 <= k < |w.toServer| && IsRequestOf(w.toServer[k], id);
      if k == 0 {
        assert IsAnswerTo(w'.written[|w.written|], id);
        assert Inv(w) ==> w.read <= |w.written|;
      } else {
        assert w'.toServer[k - 1] == w.toServer[k];
      }
    }
  }

  lemma ReadOnItsWay(w: World, id: Id)
    requires w.read < |w.written| && id in w.client.pending && (InServerQueue(w, id) || Unread(w, id))
    ensures OnItsWay(Apply(w, ReadLine), id)
  {
    var w' := Apply(w, ReadLine);
    var output := w.written[w.read];
    if IsAnswerTo(output, id) {
      assert w'.client.log[|w.client.log|] == Settlement(id, FateOf(output.body));
    } else if Unread(w, id) {
      var k :| w.read <= k < |w.written| && IsAnswerTo(w.written[k], id);
      assert IsAnswerTo(w'.written[k], id) && k != w.read;
    } else {
      assert InServerQueue(w', id);
    }
  }

  lemma StepOnItsWay(w: World, step: Step, id: Id)
    requires Inv(w) && OnItsWay(w, id) && !Disturbs(step, id)
    ensures OnItsWay(Apply(w, step), id)
  {
    if Replied(w.client, id) {
      RunKeeps(w, [step]);
      assert Run(w, [step]) == Run(Apply(w, step), []);
      RepliedStays(w.client, Apply(w, step).client, id);
    } else {
      match step
      case Call(op, params, lost) => CallOnItsWay(w, op, params, lost, id);
      case Serve(handler) => if w.alive && w.toServer != [] { ServeOnItsWay(w, handler, id); }
      case Stray => if Unread(w, id) { WrittenStaysUnread(w, Apply(w, step), id); }
      case ReadLine => if w.read < |w.written| { ReadOnItsWay(w, id); }
      case _ =>
    }
  }

  lemma {:induction false} RunOnItsWay(w: World, steps: seq<Step>, id: Id)
    requires Inv(w) && OnItsWay(w, id) && forall i | 0 <= i < |steps| :: !Disturbs(steps[i], id)
    ensures OnItsWay(Run(w, steps), id)
    decreases |steps|
  {
    hide Inv, OnItsWay, Apply, Disturbs;
    if steps != [] {
      StepOnItsWay(w, steps[0], id);
      ApplyKeeps(w, steps[0]);
      assert forall i | 0 <= i < |steps[1..]| :: steps[1..][i] == steps[i + 1];
      RunOnItsWay(Apply(w, steps[0]), steps[1..], id);
    }
  }

  /** With nothing on the way any more, the call was answered. */
  lemma NothingOnTheWay(now: World, id: Id)
    requires Inv(now) && OnItsWay(now, id) && now.toServer == [] && now.read == |now.written|
    ensures exists j | 0 <= j < |now.served| ::
              && IsRequestOf(now.served[j].request, id) && now.served[j].request in now.issued
              && Settlement(id, FateOf(now.served[j].body)) in now.client.log
  {
    assert !InServerQueue(now, id) && !Unread(now, id);
    var k :| 0 <= k < |now.client.log| && now.client.log[k].id == id && IsReply(now.client.log[k].fate);
    hide Accounted, Numbered, Answered, Responses, AsOutputs, BodyTells, Increasing;
    var body :| AnswerOf(now.served, id, body) && FateOf(body) == now.client.log[k].fate;
    var j :| 0 <= j < |now.served| && IsRequestOf(now.served[j].request, id) && now.served[j].body == body;
    assert Issued(now.issued, now.served[j].request);
    assert now.client.log[k] == Settlement(id, FateOf(now.served[j].body));
  }

  /** Undisturbed calls are answered: however serving, reading, other calls, their
      time-outs and stray output interleave, once everything sent is served and
      everything written is read, a call that was not lost is settled, by the
      answer to its own request. */
  lemma UndisturbedCallsAreAnswered(w: World, steps: seq<Step>, id: Id)
    requires Reachable(w) && id in w.client.pending && (InServerQueue(w, id) || Unread(w, id))
    requires forall i | 0 <= i < |steps| :: !Disturbs(steps[i], id)
    requires Run(w, steps).toServer == [] && Run(w, steps).read == |Run(w, steps).written|
    ensures
      var now := Run(w, steps);
      exists j | 0 <= j < |now.served| ::
        && IsRequestOf(now.served[j].request, id) && now.served[j].request in now.issued
        && Settlement(id, FateOf(now.served[j].body)) in now.client.log
  {
    hide Run, Inv, Reachable, Disturbs, FateOf;
    ReachableKeepsInv(w);
    RunOnItsWay(w, steps, id);
    RunKeeps(w, steps);
    NothingOnTheWay(Run(w, steps), id);
  }
}
