/** The server's loop over its input (`server/stdio.py`). */
module RpcServer {
  import opened Base
  import opened Rpc
  import opened RpcTheorems
  import opened RpcFates

  /** Blank lines get no answer, and every other line exactly one, in their order. */
  ghost predicate AnsweredInOrder(table: set<string>, lines: seq<Line>, handlers: seq<Handler>, written: seq<Output>)
    requires |handlers| == |lines|
  {
    exists at :: AnsweredAt(table, lines, handlers, written, at)
  }

  /** `serve_stdio` over a whole input; `handlers[i]` is how line `i` would go. */
  method ServeStdio(table: set<string>, lines: seq<Line>, handlers: seq<Handler>)
      returns (written: seq<Output>, broke: bool)
    requires |handlers| == |lines|
    ensures broke <==> NotObject in lines
    ensures !broke ==> AnsweredInOrder(table, lines, handlers, written)
    ensures broke ==> exists n ::
              && 0 <= n < |lines| && lines[n] == NotObject && NotObject !in lines[..n]
              && AnsweredInOrder(table, lines[..n], handlers[..n], written)
  {
    written := [];
    for i := 0 to |lines|
      invariant NotObject !in lines[..i]
      invariant written == Answers(table, lines[..i], handlers[..i])
    {
      assert lines[..i + 1][..i] == lines[..i] && handlers[..i + 1][..i] == handlers[..i];
      match HandleRequest(table, lines[i], handlers[i]) {
        case Skips => {}
        case Writes(output) => written := written + [output];
        case Breaks =>
          ghost var at := AnswersEachLine(table, lines[..i], handlers[..i]);
          return written, true;
      }
    }
    assert lines[..|lines|] == lines && handlers[..|lines|] == handlers;
    ghost var at := AnswersEachLine(table, lines, handlers);
    return written, false;
  }
}
