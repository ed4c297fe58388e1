/** `ProtocolClient` as it runs: a table of pending calls and their timers. */
module RpcClient {
  import opened Base
  import opened Rpc
  import opened RpcTheorems

  class ProtocolClient {
    var nextId: Id
    var pending: map<Id, string>
    var timers: set<Id>
    var log: seq<Settlement>
    var sent: seq<Line>

    function State(): Client
      reads this
    {
      Client(nextId, pending, timers, log)
    }

    /** Every id handed out is pending with its timer running, or settled once. */
    ghost predicate Valid()
      reads this
    {
      Accounted(State())
    }

    constructor ()
      ensures Valid()
      ensures State() == Start({}).client && sent == []
    {
      nextId, pending, timers, log, sent := 1, map[], {}, [], [];
    }

    /** `call`: the id is taken and the entry made before anything is sent. */
    method Issue(op: string, params: Value) returns (id: Id)
      requires Valid()
      modifies this
      ensures Valid()
      ensures id == old(nextId) && State() == Register(old(State()), op)
      ensures sent == old(sent) + [Request(Some(id), op, params)]
      ensures id !in old(pending) && !Settled(old(log), id) && id in pending && !Settled(log, id)
    {
      RegisterKeeps(State(), op);
      id := nextId;
      nextId := nextId + 1;
      timers := timers + {id};
      pending := pending[id := op];
      sent := sent + [Request(Some(id), op, params)];
    }

    method HandleOutput(output: Output)
      requires Valid()
      modifies this`pending, this`timers, this`log
      ensures Valid()
      ensures State() == HandleLine(old(State()), output)
      ensures log != old(log) <==> output.Response? && output.id.Some? && output.id.value in old(pending)
      ensures log != old(log) ==> Settled(log, output.id.value) && output.id.value !in pending
    {
      if output.Response? && output.id.Some? && output.id.value in pending {
        SettleKeeps(State(), output.id.value, FateOf(output.body));
      }
      if output.Noise? || output.id.None? {
        return;
      }
      var id := output.id.value;
      if id !in pending {
        return;
      }
      pending := pending - {id};
      timers := timers - {id};
      match output.body {
        case Error(code, message) => log := log + [Settlement(id, Refused(code, message))];
        case Result(value) => log := log + [Settlement(id, Resolved(value))];
      }
    }

    /** The `setTimeout` callback, if the timer has not been cleared. */
    method OnTimer(id: Id)
      requires Valid()
      modifies this`pending, this`timers, this`log
      ensures Valid()
      ensures State() == FireTimer(old(State()), id)
      ensures id !in pending && (1 <= id < nextId <==> Settled(log, id))
    {
      if id in timers { SettleKeeps(State(), id, TimedOut); }
      if id in timers {
        timers := timers - {id};
        pending := pending - {id};
        log := log + [Settlement(id, TimedOut)];
      }
    }

    /** `handleExit` and `handleTransportError`: reject in insertion order, which
        is id order, then clear the table. */
    method RejectPending(fate: Fate)
      requires Valid()
      modifies this`pending, this`timers, this`log
      ensures Valid()
      ensures State() == RejectAll(old(State()), fate)
      ensures pending == map[] && timers == {} && forall id: Id :: 1 <= id < nextId <==> Settled(log, id)
    {
      hide Accounted, Settled;
      ghost var after := RejectAll(State(), fate);
      RejectAllKeeps(State(), fate);
      PendingBelow(State());
      AllSettled(after);
      for id := 0 to nextId
        invariant pending == old(pending)
        invariant log == old(log) + Rejections(pending, id, fate)
        invariant forall i: Id :: i in timers <==> i in old(timers) && !(i in pending && i < id)
      {
        if id in pending {
          timers := timers - {id};
          log := log + [Settlement(id, fate)];
        }
      }
      assert timers == old(timers) - pending.Keys;
      pending := map[];
      assert State() == after;
    }
  }

  lemma PendingBelow(c: Client)
    requires Accounted(c)
    ensures forall id | id in c.pending :: id < c.nextId
  {
  }

  lemma AllSettled(c: Client)
    requires Accounted(c) && c.pending == map[]
    ensures c.timers == {} && forall id: Id :: 1 <= id < c.nextId <==> Settled(c.log, id)
  {
  }
}
