/**
 What the JSON-RPC client makes of requests and notifications of the server's own
 (internal/mcp/stdio_client.go).
 */
module McpRequests {
  import opened Prelude
  import opened Channels
  import opened McpClient
  import opened McpCalls

  /**
   dispatch ignores exactly the messages without an id that is pending.  Whether the message has a
   method of its own, and so is no response at all, makes no difference.
   */
  lemma IgnoredExactly(w: World, msg: Response, methodName: Option<string>)
    requires Enabled(w, Deliver(msg))
    ensures Step(w, Deliver(msg)).sh == w.sh && Step(w, Deliver(msg)).reader == w.reader <==>
            msg.id.None? || msg.id.value !in w.sh.pending
    ensures var w', other := Step(w, Deliver(msg)), Step(w, Deliver(msg.(methodName := methodName)));
            other.sh == w'.sh && (other.reader == w.reader <==> w'.reader == w.reader)
  {
    if msg.id.Some? && msg.id.value in w.sh.pending {
      assert msg.id.value !in Step(w, Deliver(msg)).sh.pending;
    }
  }

  lemma Then(ls: seq<Label>, l: Label) returns (r: seq<Label>)
    requires Exec(ls).Some? && Enabled(Exec(ls).value, l)
    ensures Exec(r).Some? && Exec(r).value == Step(Exec(ls).value, l)
  {
    r := ls + [l];
    assert r[..|ls|] == ls;
  }

  /** One call is out, registered or not, and its reply has got this far. */
  function OneCall(pc: Pc, pending: bool, buf: seq<Response>, reader: Reader, log: seq<Response>): World
    requires reader.Sending? || reader.Closing? ==> reader.ch == 0
  {
    World(Shared(1, if pending then map[1 := 0] else map[], None, [Chan(buf, false)]), [Call(1, 0, 0, pc)], reader, log)
  }

  lemma CallGoesOut()
    ensures Exec([]) == Some(INITIAL)
    ensures Step(INITIAL, StartCall) == OneCall(Writing, true, [], Reading, [])
    ensures var w := OneCall(Writing, true, [], Reading, []);
            && Enabled(w, Written(0, true))
            && Step(w, Written(0, true)) == OneCall(Waiting, true, [], Reading, [])
  {
  }

  lemma ReplyComesIn(msg: Response)
    requires msg.id == Some(1)
    ensures var w := OneCall(Waiting, true, [], Reading, []);
            && Enabled(w, Deliver(msg))
            && Step(w, Deliver(msg)) == OneCall(Waiting, false, [], Sending(0, msg), [msg])
    ensures var w := OneCall(Waiting, false, [], Sending(0, msg), [msg]);
            && Enabled(w, ReaderSend)
            && Step(w, ReaderSend) == OneCall(Waiting, false, [msg], Closing(0), [msg])
    ensures var w := OneCall(Waiting, false, [msg], Closing(0), [msg]);
            Enabled(w, Receive(0)) && At(Step(w, Receive(0)), 0, Returned(ReplyOf(msg)))
  {
    assert map[1 := 0] - {1} == map[];
  }

  /** A server-initiated request with a pending id is returned to a caller as its reply. */
  lemma RequestTakenForReply(request: Response) returns (ls: seq<Label>)
    requires request.id == Some(1) && request.methodName.Some?
    ensures Exec(ls).Some? && At(Exec(ls).value, 0, Returned(ReplyOf(request)))
  {
    hide Exec, Step, WellFormed, OneCall, At, ReplyOf;
    CallGoesOut();
    ReplyComesIn(request);
    ls := Then([], StartCall);
    hide Enabled;
    ls := Then(ls, Written(0, true));
    ls := Then(ls, Deliver(request));
    ls := Then(ls, ReaderSend);
    ls := Then(ls, Receive(0));
  }
}
