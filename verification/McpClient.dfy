/**
 The JSON-RPC client over stdio (internal/mcp/stdio_client.go).

 `Shared` is the data behind the client's mutex together with the Go channels it has made;
 each function on it is one critical section or one channel operation.  The class `Client`
 performs them in place.
 */
module McpClient {
  import opened Prelude
  import opened Channels

  /** An incoming message; one with a method is a request or notification of the server's own. */
  datatype Response = Response(id: Option<int>, methodName: Option<string>, result: string, error: Option<string>)

  /** The size of `make(chan response, 1)`. */
  const CAPACITY := 1
  const NEW_CHAN: Chan<Response> := Chan([], false)

  /** `pending` maps request ids to indices into `chans`, the channels made so far. */
  datatype Shared = Shared(nextID: int, pending: map<int, nat>, readErr: Option<string>, chans: seq<Chan<Response>>)

  predicate Resolves(s: Shared) {
    forall id <- s.pending :: s.pending[id] < |s.chans|
  }

  /** What close and send need of the entries of `pending`: separate, open, empty channels. */
  ghost predicate Ready(s: Shared) {
    && Resolves(s)
    && (forall id <- s.pending :: s.chans[s.pending[id]] == NEW_CHAN)
    && (forall a, b | a in s.pending && b in s.pending && a != b :: s.pending[a] != s.pending[b])
  }

  function Registered(s: Shared): Shared {
    s.(nextID := s.nextID + 1,
       pending := s.pending[s.nextID + 1 := |s.chans|],
       chans := s.chans + [NEW_CHAN])
  }

  function Forgotten(s: Shared, id: int): Shared {
    s.(pending := s.pending - {id})
  }

  function Sent(s: Shared, ch: nat, msg: Response): Shared
    requires ch < |s.chans|
  {
    s.(chans := s.chans[ch := s.chans[ch].(buf := s.chans[ch].buf + [msg])])
  }

  function Closed(s: Shared, ch: nat): Shared
    requires ch < |s.chans|
  {
    s.(chans := s.chans[ch := s.chans[ch].(closed := true)])
  }

  function Received(s: Shared, ch: nat): Shared
    requires ch < |s.chans| && s.chans[ch].buf != []
  {
    s.(chans := s.chans[ch := s.chans[ch].(buf := s.chans[ch].buf[1..])])
  }

  function Failed(s: Shared, err: string): Shared {
    s.(pending := map[], readErr := Some(err), chans := CloseEach(s.chans, s.pending.Values))
  }

  /** The client's mutable state; every method is one critical section or channel operation. */
  class Client {
    var nextID: int
    var pending: map<int, nat>
    var readErr: Option<string>
    var chans: seq<Chan<Response>>

    ghost function View(): Shared
      reads this
    {
      Shared(nextID, pending, readErr, chans)
    }

    constructor ()
      ensures View() == Shared(0, map[], None, [])
    {
      nextID, pending, readErr, chans := 0, map[], None, [];
    }

    // call, first critical section: refuse, or take the next id and a fresh channel.
    method Register() returns (r: Result<(int, nat), string>)
      modifies this
      ensures old(readErr).Some? ==> r == Err(old(readErr).value) && View() == old(View())
      ensures old(readErr).None? ==>
                r == Ok((old(nextID) + 1, |old(chans)|)) && View() == Registered(old(View()))
    {
      if readErr.Some? {
        return Err(readErr.value);
      }
      nextID := nextID + 1;
      chans := chans + [NEW_CHAN];
      pending := pending[nextID := |chans| - 1];
      r := Ok((nextID, |chans| - 1));
    }

    // call, after a failed write or an expired context.
    method Forget(id: int)
      modifies this
      ensures View() == Forgotten(old(View()), id)
    {
      pending := pending - {id};
    }

    // dispatch, under the lock.
    method Take(id: int) returns (ch: Option<nat>)
      modifies this
      ensures View() == Forgotten(old(View()), id)
      ensures ch == if id in old(pending) then Some(old(pending)[id]) else None
    {
      if id in pending {
        ch := Some(pending[id]);
        pending := pending - {id};
      } else {
        ch := None;
        assert pending - {id} == pending;
      }
    }

    // ch <- msg: panics on a closed channel and blocks on a full one, so neither may hold.
    method Send(ch: nat, msg: Response)
      requires ch < |chans| && !chans[ch].closed && |chans[ch].buf| < CAPACITY
      modifies this
      ensures View() == Sent(old(View()), ch, msg)
    {
      chans := chans[ch := chans[ch].(buf := chans[ch].buf + [msg])];
    }

    // close(ch): panics on a closed channel.
    method CloseChan(ch: nat)
      requires ch < |chans| && !chans[ch].closed
      modifies this
      ensures View() == Closed(old(View()), ch)
    {
      chans := chans[ch := chans[ch].(closed := true)];
    }

    // dispatch when no other goroutine runs in between.
    method Dispatch(msg: Response)
      requires Ready(View())
      modifies this
      ensures Ready(View())
      ensures msg.id.None? || msg.id.value !in old(pending) ==> View() == old(View())
      ensures msg.id.Some? && msg.id.value in old(pending) ==>
                var ch := old(pending)[msg.id.value];
                View() == Closed(Sent(Forgotten(old(View()), msg.id.value), ch, msg), ch)
    {
      if msg.id.None? {
        return;
      }
      var ch := Take(msg.id.value);
      if ch.Some? {
        Send(ch.value, msg);
        CloseChan(ch.value);
      }
    }

    // readLoop's exit: close every pending channel, emptying the map as it goes.
    method FailAll(err: string)
      requires Ready(View())
      modifies this
      ensures View() == Failed(old(View()), err)
    {
      readErr := Some(err);
      ghost var done: set<nat> := {};
      assert CloseEach(chans, done) == chans;
      while pending != map[]
        invariant nextID == old(nextID) && readErr == Some(err)
        invariant pending.Keys <= old(pending).Keys && forall id <- pending :: pending[id] == old(pending)[id]
        invariant done == set id | id in old(pending) && id !in pending :: old(pending)[id]
        invariant chans == CloseEach(old(chans), done)
        decreases pending.Keys
      {
        HasEntry(pending);
        var id :| id in pending;
        NotYetClosed(old(pending), pending, id, done);
        var ch := pending[id];
        CloseChan(ch);
        CloseOneMore(old(chans), done, ch);
        done := done + {ch};
        pending := pending - {id};
      }
      AllValues(old(pending), done);
    }
  }

  /** The channel of an entry that is left has not been closed, since no other entry has it. */
  lemma NotYetClosed(before: map<int, nat>, pending: map<int, nat>, id: int, done: set<nat>)
    requires pending.Keys <= before.Keys && forall i <- pending :: pending[i] == before[i]
    requires forall a, b | a in before && b in before && a != b :: before[a] != before[b]
    requires done == set i | i in before && i !in pending :: before[i]
    requires id in pending
    ensures pending[id] !in done
    ensures done + {pending[id]} == set i | i in before && i !in pending - {id} :: before[i]
  {
  }

  lemma CloseOneMore(chans: seq<Chan<Response>>, done: set<nat>, ch: nat)
    requires ch < |chans|
    ensures var now := CloseEach(chans, done);
            now[ch := now[ch].(closed := true)] == CloseEach(chans, done + {ch})
  {
  }

  lemma HasEntry(m: map<int, nat>)
    ensures m != map[] ==> exists id :: id in m
  {
    if !exists id :: id in m {
      assert m == map[];
    }
  }

  lemma AllValues(m: map<int, nat>, values: set<nat>)
    requires values == set id | id in m :: m[id]
    ensures values == m.Values
  {
    forall ch
      ensures ch in m.Values ==> ch in values
    {
      HasKey(m, ch);
    }
  }

  lemma HasKey(m: map<int, nat>, ch: nat)
    ensures ch in m.Values ==> exists id :: id in m && m[id] == ch
  {
    if !exists id :: id in m && m[id] == ch {
      assert ch !in m.Values;
    }
  }
}
