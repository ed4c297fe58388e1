/** The JSON-RPC 2.0 client (`frontend/shared/src/client.ts`) and server
    (`server/stdio.py`), joined by two first-in first-out channels. */
module Rpc {
  import opened Base

  type Id = nat
  type Value = string

  // ------------------------------------------------------------------- messages

  /** What the server may find on a line of its input. */
  datatype Line = Blank | NotJson | NotObject | Request(id: Option<Id>, op: string, params: Value)

  datatype Body = Result(value: Value) | Error(code: int, message: string)

  /** What the client may find on a line of its input: a response, or anything that
      is blank, not JSON, or without an id. */
  datatype Output = Noise | Response(id: Option<Id>, body: Body)

  const METHOD_NOT_FOUND: int := -32601
  const PARSE_ERROR: int := -32700
  const INTERNAL_ERROR: int := -32000

  // --------------------------------------------------------------------- server

  /** How a method's handler ends; what it computes is not modelled. */
  datatype Handler = Returns(value: Value) | RaisesRpc(code: int, message: string) | Raises(message: string)

  /** `dispatch`, with the three `except` branches of `handle_line`. */
  function Dispatch(table: set<string>, op: string, handler: Handler): Body {
    if op !in table then Error(METHOD_NOT_FOUND, "unknown method: " + op)
    else
      match handler
      case Returns(value) => Result(value)
      case RaisesRpc(code, message) => Error(code, message)
      case Raises(message) => Error(INTERNAL_ERROR, message)
  }

  datatype Handling = Skips | Writes(output: Output) | Breaks

  /** One line of `serve_stdio`: blank lines are skipped, and a JSON value that is
      not an object breaks the loop. */
  function HandleRequest(table: set<string>, line: Line, handler: Handler): Handling {
    match line
    case Blank => Skips
    case NotJson => Writes(Response(None, Error(PARSE_ERROR, "parse error")))
    case NotObject => Breaks
    case Request(id, op, _) => Writes(Response(id, Dispatch(table, op, handler)))
  }

  /** What the lines that are not blank are answered with, in their order. */
  function Answers(table: set<string>, lines: seq<Line>, handlers: seq<Handler>): seq<Output>
    requires |handlers| == |lines|
  {
    if lines == [] then []
    else
      var n := |lines| - 1;
      var handling := HandleRequest(table, lines[n], handlers[n]);
      Answers(table, lines[..n], handlers[..n]) + if handling.Writes? then [handling.output] else []
  }

  // --------------------------------------------------------------------- client

  datatype Fate = Resolved(value: Value) | Refused(code: int, message: string) | TimedOut | Exited | TransportFailed
  /** One call of a promise's `resolve` or `reject`. */
  datatype Settlement = Settlement(id: Id, fate: Fate)

  datatype Client = Client(nextId: Id, pending: map<Id, string>, timers: set<Id>, log: seq<Settlement>)

  function Settle(c: Client, id: Id, fate: Fate): Client {
    c.(pending := c.pending - {id}, timers := c.timers - {id}, log := c.log + [Settlement(id, fate)])
  }

  function FateOf(body: Body): Fate {
    match body
    case Result(value) => Resolved(value)
    case Error(code, message) => Refused(code, message)
  }

  /** `handleLine`. */
  function HandleLine(c: Client, output: Output): Client {
    if output.Noise? || output.id.None? || output.id.value !in c.pending then c
    else Settle(c, output.id.value, FateOf(output.body))
  }

  /** The timer callback does not look whether the call is still pending. */
  function FireTimer(c: Client, id: Id): Client {
    if id in c.timers then Settle(c, id, TimedOut) else c
  }

  /** Pending calls below `n`, oldest first, all with one fate. */
  function Rejections(pending: map<Id, string>, n: nat, fate: Fate): seq<Settlement> {
    if n == 0 then []
    else Rejections(pending, n - 1, fate) + if n - 1 in pending then [Settlement(n - 1, fate)] else []
  }

  /** `handleExit` and `handleTransportError`. */
  function RejectAll(c: Client, fate: Fate): Client {
    c.(pending := map[], timers := c.timers - c.pending.Keys, log := c.log + Rejections(c.pending, c.nextId, fate))
  }

  /** The registering half of `call`. */
  function Register(c: Client, op: string): Client {
    c.(nextId := c.nextId + 1, pending := c.pending[c.nextId := op], timers := c.timers + {c.nextId})
  }

  // --------------------------------------------------------------- both together

  /** A request the server dispatched, and what it answered. */
  datatype Served = Served(request: Line, body: Body)

  datatype World = World(
    table: set<string>, client: Client, issued: seq<Line>, toServer: seq<Line>, alive: bool,
    served: seq<Served>, written: seq<Output>, read: nat)

  datatype Step =
    | Call(op: string, params: Value, lost: bool)
    | Serve(handler: Handler)
    | Stray
    | ServerEnds
    | ReadLine
    | TimerFires(id: Id)
    | ExitSeen
    | TransportBreaks

  function ServeNext(w: World, handler: Handler): World {
    if !w.alive || w.toServer == [] then w
    else
      var line := w.toServer[0];
      var rest := w.(toServer := w.toServer[1..]);
      match HandleRequest(w.table, line, handler)
      case Skips => rest
      case Breaks => rest.(alive := false)
      case Writes(output) =>
        rest.(written := w.written + [output],
              served := if line.Request? then w.served + [Served(line, output.body)] else w.served)
  }

  function Apply(w: World, step: Step): World {
    match step
    case Call(op, params, lost) =>
      var request := Request(Some(w.client.nextId), op, params);
      w.(client := Register(w.client, op), issued := w.issued + [request],
         toServer := if lost then w.toServer else w.toServer + [request])
    case Serve(handler) => ServeNext(w, handler)
    case Stray => w.(written := w.written + [Noise])
    case ServerEnds => w.(alive := false)
    case ReadLine =>
      if w.read >= |w.written| then w
      else w.(client := HandleLine(w.client, w.written[w.read]), read := w.read + 1)
    case TimerFires(id) => w.(client := FireTimer(w.client, id))
    case ExitSeen => w.(client := RejectAll(w.client, Exited))
    case TransportBreaks => w.(client := RejectAll(w.client, TransportFailed))
  }

  function Run(w: World, steps: seq<Step>): World
    decreases |steps|
  {
    if steps == [] then w else Run(Apply(w, steps[0]), steps[1..])
  }

  function Start(table: set<string>): World {
    World(table, Client(1, map[], {}, []), [], [], true, [], [], 0)
  }
}
