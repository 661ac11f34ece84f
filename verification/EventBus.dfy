/**
 The per-job event broadcaster (internal/logs/stream.go).

 Every method of Bus holds the lock from start to end, so an interleaving is a sequence of
 whole operations.  `State` is the bus with the channels it has made, the class `Bus` updates
 it in place, and `World` adds what each subscriber has seen.
 */
module EventBus {
  import opened Prelude
  import opened Channels

  datatype Event = Event(step: string, status: string, message: string)

  /** The size of `make(chan Event, 64)`. */
  const CAPACITY := 64

  /** `subs` holds indices into `chans`, the channels made so far. */
  datatype State = State(history: seq<Event>, subs: set<nat>, closed: bool, chans: seq<Chan<Event>>)

  const EMPTY := State([], {}, false, [])

  /** The non-blocking send of Publish. */
  function Offer(ch: Chan<Event>, e: Event): Chan<Event> {
    if |ch.buf| < CAPACITY then ch.(buf := ch.buf + [e]) else ch
  }

  function OfferEach(chans: seq<Chan<Event>>, to: set<nat>, e: Event): (r: seq<Chan<Event>>)
    ensures |r| == |chans|
    ensures forall i | 0 <= i < |chans| :: r[i] == if i in to then Offer(chans[i], e) else chans[i]
  {
    seq(|chans|, i requires 0 <= i < |chans| => if i in to then Offer(chans[i], e) else chans[i])
  }

  function Published(s: State, e: Event): State {
    if s.closed then s
    else s.(history := s.history + [e], chans := OfferEach(s.chans, s.subs, e))
  }

  function Subscribed(s: State): State {
    s.(subs := if s.closed then s.subs else s.subs + {|s.chans|},
       chans := s.chans + [Chan([], s.closed)])
  }

  function Cancelled(s: State, c: nat): State {
    if c in s.subs then s.(subs := s.subs - {c}, chans := CloseEach(s.chans, {c})) else s
  }

  function Shut(s: State): State {
    if s.closed then s else s.(closed := true, subs := {}, chans := CloseEach(s.chans, s.subs))
  }

  /** A subscriber taking the oldest buffered event. */
  function Taken(s: State, c: nat): State
    requires c < |s.chans| && s.chans[c].buf != []
  {
    s.(chans := s.chans[c := s.chans[c].(buf := s.chans[c].buf[1..])])
  }

  /** Subscribed channels are exactly the open ones, and none is left once the bus is closed. */
  ghost predicate Valid(s: State) {
    && (forall c <- s.subs :: c < |s.chans|)
    && (forall c | 0 <= c < |s.chans| :: c in s.subs <==> !s.chans[c].closed)
    && (s.closed ==> s.subs == {})
  }

  class Bus {
    var history: seq<Event>
    var subs: set<nat>
    var closed: bool
    var chans: seq<Chan<Event>>

    ghost function View(): State
      reads this
    {
      State(history, subs, closed, chans)
    }

    constructor ()
      ensures View() == EMPTY && Valid(View())
    {
      history, subs, closed, chans := [], {}, false, [];
    }

    // select { case ch <- e: default: }, which panics on a closed channel.
    method Send(c: nat, e: Event)
      requires c < |chans| && !chans[c].closed
      modifies this`chans
      ensures chans == OfferEach(old(chans), {c}, e)
    {
      if |chans[c].buf| < CAPACITY {
        chans := chans[c := chans[c].(buf := chans[c].buf + [e])];
      }
    }

    // close(ch), which panics on a closed channel.
    method CloseChan(c: nat)
      requires c < |chans| && !chans[c].closed
      modifies this`chans
      ensures chans == CloseEach(old(chans), {c})
    {
      chans := chans[c := chans[c].(closed := true)];
    }

    method Publish(e: Event)
      requires Valid(View())
      modifies this
      ensures Valid(View()) && View() == Published(old(View()), e)
      ensures history == (if old(closed) then old(history) else old(history) + [e])
      ensures closed == old(closed) && subs == old(subs) && |chans| == |old(chans)|
      ensures forall c | 0 <= c < |chans| ::
                var ch := old(chans)[c];
                chans[c] == if c in subs && |ch.buf| < 64 then Chan(ch.buf + [e], ch.closed) else ch
    {
      if closed {
        return;
      }
      history := history + [e];
      var todo := subs;
      while todo != {}
        invariant todo <= subs == old(subs) && closed == old(closed) && history == old(history) + [e]
        invariant chans == OfferEach(old(chans), subs - todo, e)
        decreases todo
      {
        HasElement(todo);
        var c :| c in todo;
        Send(c, e);
        todo := todo - {c};
      }
    }

    // The snapshot, the channel, and the argument of the returned cancel closure.
    method Subscribe() returns (hist: seq<Event>, c: nat)
      requires Valid(View())
      modifies this
      ensures Valid(View()) && View() == Subscribed(old(View()))
      ensures hist == history == old(history) && c == |old(chans)| && closed == old(closed)
      ensures chans == old(chans) + [Chan([], closed)] && (c in subs <==> !closed) && subs - {c} == old(subs)
    {
      hist := history;
      c := |chans|;
      chans := chans + [Chan([], false)];
      if closed {
        CloseChan(c);
        return;
      }
      subs := subs + {c};
    }

    // The cancel closure; safe to call any number of times and after Close.
    method Cancel(c: nat)
      requires Valid(View())
      modifies this
      ensures Valid(View()) && View() == Cancelled(old(View()), c)
      ensures history == old(history) && closed == old(closed)
      ensures subs == old(subs) - {c} && |chans| == |old(chans)|
      ensures forall k | 0 <= k < |chans| :: chans[k] == Chan(old(chans)[k].buf, old(chans)[k].closed || k == c)
    {
      if c in subs {
        subs := subs - {c};
        CloseChan(c);
      }
    }

    method Close()
      requires Valid(View())
      modifies this
      ensures Valid(View()) && View() == Shut(old(View()))
      ensures history == old(history) && closed && subs == {} && |chans| == |old(chans)|
      ensures forall c | 0 <= c < |chans| :: chans[c] == Chan(old(chans)[c].buf, true)
    {
      if closed {
        return;
      }
      closed := true;
      while subs != {}
        invariant subs <= old(subs) && closed && history == old(history)
        invariant chans == CloseEach(old(chans), old(subs) - subs)
        decreases subs
      {
        HasElement(subs);
        var c :| c in subs;
        CloseChan(c);
        subs := subs - {c};
      }
    }
  }

  // ---------------------------------------------------------------------------------------------
  // Subscribers.

  /** What the k-th subscriber was handed, has taken off its channel, and has missed. */
  datatype Track = Track(snapshot: seq<Event>, received: seq<Event>, dropped: nat, cancelled: bool)

  datatype World = World(bus: State, tracks: seq<Track>)

  const START := World(EMPTY, [])

  datatype Op = Publish(e: Event) | Subscribe | Cancel(c: nat) | Close | Take(c: nat)

  predicate Enabled(w: World, op: Op) {
    match op
    case Cancel(c) => c < |w.bus.chans|
    case Take(c) => c < |w.bus.chans| == |w.tracks| && w.bus.chans[c].buf != []
    case _ => true
  }

  /** A publish reaches subscriber c and finds its buffer full. */
  predicate FindsFull(w: World, op: Op, c: nat) {
    op.Publish? && !w.bus.closed && c in w.bus.subs && c < |w.bus.chans| && |w.bus.chans[c].buf| >= CAPACITY
  }

  function Step(w: World, op: Op): World
    requires Enabled(w, op)
  {
    match op
    case Publish(e) => World(Published(w.bus, e),
      seq(|w.tracks|, c requires 0 <= c < |w.tracks| =>
        if FindsFull(w, op, c) then w.tracks[c].(dropped := w.tracks[c].dropped + 1) else w.tracks[c]))
    case Subscribe => World(Subscribed(w.bus), w.tracks + [Track(w.bus.history, [], 0, false)])
    case Cancel(c) => World(Cancelled(w.bus, c),
      if c in w.bus.subs && c < |w.tracks| then w.tracks[c := w.tracks[c].(cancelled := true)] else w.tracks)
    case Close => w.(bus := Shut(w.bus))
    case Take(c) => World(Taken(w.bus, c),
      w.tracks[c := w.tracks[c].(received := w.tracks[c].received + [w.bus.chans[c].buf[0]])])
  }

  function Exec(ops: seq<Op>): Option<World> {
    if ops == [] then Some(START)
    else
      var n := |ops| - 1;
      match Exec(ops[..n])
      case None => None
      case Some(w) => if Enabled(w, ops[n]) then Some(Step(w, ops[n])) else None
  }

  // ---------------------------------------------------------------------------------------------
  // Subsequences, decided from the end.

  predicate Subsequence<T(==)>(a: seq<T>, b: seq<T>) {
    a == [] ||
    (b != [] &&
     ((a[|a| - 1] == b[|b| - 1] && Subsequence(a[..|a| - 1], b[..|b| - 1])) || Subsequence(a, b[..|b| - 1])))
  }

  lemma {:induction false} SubsequenceLength<T>(a: seq<T>, b: seq<T>)
    requires Subsequence(a, b)
    ensures |a| <= |b|
    ensures |a| == |b| ==> a == b
  {
    if a == [] {
    } else {
      if a[|a| - 1] == b[|b| - 1] && Subsequence(a[..|a| - 1], b[..|b| - 1]) {
        SubsequenceLength(a[..|a| - 1], b[..|b| - 1]);
        assert |a| == |b| ==> a == a[..|a| - 1] + [a[|a| - 1]] && b == b[..|b| - 1] + [b[|b| - 1]];
      } else {
        SubsequenceLength(a, b[..|b| - 1]);
      }
    }
  }

  lemma SubsequenceGrows<T>(a: seq<T>, b: seq<T>, x: T)
    requires Subsequence(a, b)
    ensures Subsequence(a, b + [x]) && Subsequence(a + [x], b + [x])
  {
    assert (a + [x])[..|a|] == a && (b + [x])[..|b|] == b;
  }

  lemma {:induction false} SubsequenceReflexive<T>(a: seq<T>)
    ensures Subsequence(a, a)
  {
    if a == [] {
    } else {
      SubsequenceReflexive(a[..|a| - 1]);
    }
  }

  // ---------------------------------------------------------------------------------------------
  // Every interleaving.

  /** Everything subscriber c was handed, has taken, or can still take. */
  function Seen(w: World, c: nat): seq<Event>
    requires c < |w.tracks| == |w.bus.chans|
  {
    w.tracks[c].snapshot + w.tracks[c].received + w.bus.chans[c].buf
  }

  ghost predicate TrackOk(w: World, c: nat)
    requires c < |w.tracks| == |w.bus.chans|
  {
    var t := w.tracks[c];
    && Subsequence(Seen(w, c), w.bus.history)
    && t.snapshot <= w.bus.history
    && |w.bus.chans[c].buf| <= CAPACITY
    && (!t.cancelled ==> |Seen(w, c)| + t.dropped == |w.bus.history|)
    && (w.bus.chans[c].closed ==> t.cancelled || w.bus.closed)
  }

  ghost predicate Inv(w: World) {
    && Valid(w.bus) && |w.tracks| == |w.bus.chans|
    && forall c | 0 <= c < |w.tracks| :: TrackOk(w, c)
  }

  /** What one publish does for one subscriber. */
  lemma PublishSeen(w: World, op: Op, c: nat)
    requires Inv(w) && op.Publish? && c < |w.tracks|
    ensures var w' := Step(w, op);
            && |w'.tracks| == |w'.bus.chans| == |w.tracks|
            && w'.bus.history == w.bus.history + (if w.bus.closed then [] else [op.e])
            && w'.bus.closed == w.bus.closed && w'.bus.chans[c].closed == w.bus.chans[c].closed
            && w'.tracks[c].snapshot == w.tracks[c].snapshot && w'.tracks[c].cancelled == w.tracks[c].cancelled
            && w'.tracks[c].dropped == w.tracks[c].dropped + (if FindsFull(w, op, c) then 1 else 0)
            && var got := !w.bus.closed && c in w.bus.subs && !FindsFull(w, op, c);
               Seen(w', c) == Seen(w, c) + (if got then [op.e] else [])
               && |w'.bus.chans[c].buf| == |w.bus.chans[c].buf| + (if got then 1 else 0) <= CAPACITY
  {
    assert TrackOk(w, c);
    hide Subsequence;
  }

  lemma SubsequenceStep(seen: seq<Event>, history: seq<Event>, e: Event, kept: bool, got: bool)
    requires Subsequence(seen, history) && (got ==> kept)
    ensures Subsequence(seen + (if got then [e] else []), history + (if kept then [e] else []))
  {
    SubsequenceGrows(seen, history, e);
    hide Subsequence;
    assert seen + [] == seen && history + [] == history;
  }

  lemma PublishKeepsTrack(w: World, op: Op, c: nat)
    requires Inv(w) && op.Publish? && c < |w.tracks|
    ensures |Step(w, op).tracks| == |Step(w, op).bus.chans| == |w.tracks| && TrackOk(Step(w, op), c)
  {
    hide Subsequence, Step, Seen;
    assert TrackOk(w, c) && (c in w.bus.subs <==> !w.bus.chans[c].closed);
    PublishSeen(w, op, c);
    SubsequenceStep(Seen(w, c), w.bus.history, op.e, !w.bus.closed,
                    !w.bus.closed && c in w.bus.subs && !FindsFull(w, op, c));
    hide Inv, Valid;
  }

  lemma TakeKeepsTrack(w: World, op: Op, c: nat)
    requires Inv(w) && Enabled(w, op) && op.Take? && c < |w.tracks|
    ensures |Step(w, op).tracks| == |Step(w, op).bus.chans| == |w.tracks| && TrackOk(Step(w, op), c)
  {
    assert TrackOk(w, c);
    if op.c == c {
      var ch := w.bus.chans[c];
      assert ch.buf == [ch.buf[0]] + ch.buf[1..];
    }
    assert Seen(Step(w, op), c) == Seen(w, c);
    hide Subsequence;
  }

  lemma OtherKeepsTrack(w: World, op: Op, c: nat)
    requires Inv(w) && Enabled(w, op) && !op.Publish? && !op.Take? && c < |w.tracks|
    ensures |Step(w, op).tracks| == |Step(w, op).bus.chans| >= |w.tracks| && TrackOk(Step(w, op), c)
  {
    assert TrackOk(w, c);
    assert Seen(Step(w, op), c) == Seen(w, c);
    hide Subsequence;
  }

  lemma StepKeepsInv(w: World, op: Op)
    requires Inv(w) && Enabled(w, op)
    ensures Inv(Step(w, op))
  {
    var w' := Step(w, op);
    forall c | 0 <= c < |w'.tracks|
      ensures TrackOk(w', c)
    {
      if c < |w.tracks| {
        if op.Publish? {
          PublishKeepsTrack(w, op, c);
        } else if op.Take? {
          TakeKeepsTrack(w, op, c);
        } else {
          OtherKeepsTrack(w, op, c);
        }
      } else {
        assert Seen(w', c) == w.bus.history;
        SubsequenceReflexive(w.bus.history);
      }
    }
  }

  lemma {:induction false} Reachable(ops: seq<Op>)
    requires Exec(ops).Some?
    ensures Inv(Exec(ops).value)
  {
    if ops == [] {
    } else {
      Reachable(ops[..|ops| - 1]);
      StepKeepsInv(Exec(ops[..|ops| - 1]).value, ops[|ops| - 1]);
    }
  }

  lemma SeenOrDropped(w: World, c: nat)
    requires Inv(w) && c < |w.tracks|
    ensures Subsequence(Seen(w, c), w.bus.history) && w.tracks[c].snapshot <= w.bus.history
    ensures !w.tracks[c].cancelled ==> |Seen(w, c)| + w.tracks[c].dropped == |w.bus.history|
    ensures !w.tracks[c].cancelled ==> (w.tracks[c].dropped == 0 <==> Seen(w, c) == w.bus.history)
  {
    assert TrackOk(w, c);
    SubsequenceLength(Seen(w, c), w.bus.history);
  }

  /** The i-th operation is a publish that finds 64 events in subscriber c's buffer. */
  ghost predicate Misses(ops: seq<Op>, i: nat, c: nat) {
    && i < |ops| && ops[i].Publish? && Exec(ops[..i]).Some?
    && var b := Exec(ops[..i]).value.bus;
       c in b.subs && c < |b.chans| && |b.chans[c].buf| == 64
  }

  lemma MissesIsFull(ops: seq<Op>, i: nat, c: nat)
    requires i < |ops| && Exec(ops[..i]).Some?
    ensures Misses(ops, i, c) <==> FindsFull(Exec(ops[..i]).value, ops[i], c)
  {
    Reachable(ops[..i]);
    var w := Exec(ops[..i]).value;
    assert c < |w.tracks| ==> TrackOk(w, c);
    hide Subsequence, Seen;
  }

  lemma DroppedStep(w: World, op: Op, c: nat)
    requires Inv(w) && Enabled(w, op) && c < |Step(w, op).tracks|
    ensures c < |w.tracks| ==>
              Step(w, op).tracks[c].dropped == w.tracks[c].dropped + if FindsFull(w, op, c) then 1 else 0
    ensures c >= |w.tracks| ==> Step(w, op).tracks[c].dropped == 0 && !FindsFull(w, op, c)
  {
  }

  /** An event is missed exactly when a publish finds the buffer full. */
  lemma {:induction false} MissedIffFull(ops: seq<Op>, c: nat)
    requires Exec(ops).Some? && c < |Exec(ops).value.tracks|
    ensures Exec(ops).value.tracks[c].dropped > 0 <==> exists i :: Misses(ops, i, c)
  {
    if ops == [] {
    } else {
      hide Step, FindsFull;
      var n := |ops| - 1;
      var w := Exec(ops[..n]).value;
      Reachable(ops[..n]);
      DroppedStep(w, ops[n], c);
      assert ops[..n] + ops[n..] == ops;
      forall i | 0 <= i < n
        ensures Misses(ops, i, c) <==> Misses(ops[..n], i, c)
      {
        assert ops[..n][..i] == ops[..i];
      }
      if c < |w.tracks| {
        MissedIffFull(ops[..n], c);
        MissesIsFull(ops, n, c);
      } else {
        NothingMissedBefore(ops[..n], c);
        MissesIsFull(ops, n, c);
      }
    }
  }

  lemma {:induction false} NothingMissedBefore(ops: seq<Op>, c: nat)
    requires Exec(ops).Some? && c >= |Exec(ops).value.tracks|
    ensures forall i: nat :: !Misses(ops, i, c)
  {
    forall i: nat
      ensures !Misses(ops, i, c)
    {
      if i < |ops| {
        assert ops[..i] + ops[i..] == ops;
        ChansGrow(ops[..i], ops[i..]);
        Reachable(ops[..i]);
        Reachable(ops);
      }
    }
  }

  /** What no operation takes back. */
  ghost predicate Later(w: World, w': World) {
    && |w.bus.chans| <= |w'.bus.chans|
    && w.bus.history <= w'.bus.history
    && (w.bus.closed ==> w'.bus.closed && w'.bus.history == w.bus.history)
  }

  lemma StepIsLater(w: World, op: Op)
    requires Enabled(w, op)
    ensures Later(w, Step(w, op))
  {
  }

  /** The history only grows, and not at all once the bus is closed. */
  lemma {:induction false} ChansGrow(ops: seq<Op>, more: seq<Op>)
    requires Exec(ops + more).Some?
    ensures Exec(ops).Some? && Later(Exec(ops).value, Exec(ops + more).value)
  {
    hide Step, Enabled;
    if more == [] {
      assert ops + more == ops;
    } else {
      var n := |more| - 1;
      assert (ops + more)[..|ops + more| - 1] == ops + more[..n];
      ChansGrow(ops, more[..n]);
      StepIsLater(Exec(ops + more[..n]).value, more[n]);
    }
  }

  /** A subscriber is marked cancelled by nothing but its Cancel. */
  lemma {:induction false} CancelledByCancel(ops: seq<Op>, c: nat)
    requires Exec(ops).Some? && c < |Exec(ops).value.tracks|
    ensures Exec(ops).value.tracks[c].cancelled ==> Cancel(c) in ops
  {
    hide Published, Subscribed, Cancelled, Shut, Taken;
    var n := |ops| - 1;
    if c < |Exec(ops[..n]).value.tracks| {
      CancelledByCancel(ops[..n], c);
      assert ops == ops[..n] + [ops[n]];
    }
  }

  /** What was published before the bus was closed. */
  function Said(ops: seq<Op>): seq<Event> {
    if ops == [] then []
    else
      var n := |ops| - 1;
      if ops[n].Publish? && Close !in ops[..n] then Said(ops[..n]) + [ops[n].e] else Said(ops[..n])
  }

  /** The bus is closed by Close alone, and its history is what was published before. */
  lemma {:induction false} HistoryIsSaid(ops: seq<Op>)
    requires Exec(ops).Some?
    ensures Exec(ops).value.bus.closed <==> Close in ops
    ensures Exec(ops).value.bus.history == Said(ops)
  {
    if ops == [] {
    } else {
      var n := |ops| - 1;
      HistoryIsSaid(ops[..n]);
      assert ops == ops[..n] + [ops[n]];
      hide Subscribed, OfferEach, CloseEach;
      StepHistory(Exec(ops[..n]).value, ops[n]);
      hide Step;
    }
  }

  lemma StepHistory(w: World, op: Op)
    requires Enabled(w, op)
    ensures Step(w, op).bus.closed <==> w.bus.closed || op == Close
    ensures Step(w, op).bus.history == w.bus.history + if op.Publish? && !w.bus.closed then [op.e] else []
  {
  }

  lemma StepAfterCancel(w: World, op: Op, c: nat)
    requires Inv(w) && Enabled(w, op) && c < |w.tracks| && w.bus.chans[c].closed
    ensures var w' := Step(w, op);
            && c < |w'.tracks| == |w'.bus.chans| && w'.bus.chans[c].closed
            && Seen(w', c) == Seen(w, c) && w'.tracks[c].dropped == w.tracks[c].dropped
  {
    StepKeepsInv(w, op);
    if op.Publish? {
      PublishSeen(w, op, c);
    }
    hide Subsequence;
    if op.Take? && op.c == c {
      assert w.bus.chans[c].buf == [w.bus.chans[c].buf[0]] + w.bus.chans[c].buf[1..];
    }
  }

  /** A closed channel brings its subscriber nothing any more. */
  lemma {:induction false} ClosedStays(ops: seq<Op>, more: seq<Op>, c: nat)
    requires Exec(ops + more).Some? && Exec(ops).Some? && c < |Exec(ops).value.tracks|
    requires |Exec(ops).value.tracks| == |Exec(ops).value.bus.chans| && Exec(ops).value.bus.chans[c].closed
    ensures var w, w' := Exec(ops).value, Exec(ops + more).value;
            && c < |w'.tracks| == |w'.bus.chans| && w'.bus.chans[c].closed && c !in w'.bus.subs
            && Seen(w', c) == Seen(w, c) && w'.tracks[c].dropped == w.tracks[c].dropped
  {
    hide Step, Seen, TrackOk;
    if more == [] {
      assert ops + more == ops;
    } else {
      var n := |more| - 1;
      assert (ops + more)[..|ops + more| - 1] == ops + more[..n];
      ClosedStays(ops, more[..n], c);
      Reachable(ops + more[..n]);
      StepAfterCancel(Exec(ops + more[..n]).value, more[n], c);
    }
    Reachable(ops + more);
  }

  /** What a cancel does at once: it unsubscribes and closes the one channel, and touches nothing else. */
  ghost predicate OnlyCloses(w: World, w': World, c: nat)
    requires c < |w.bus.chans|
  {
    && w'.bus.history == w.bus.history && w'.bus.closed == w.bus.closed && w'.bus.subs == w.bus.subs - {c}
    && w'.bus.chans == w.bus.chans[c := Chan(w.bus.chans[c].buf, true)]
    && |w'.tracks| == |w.tracks|
    && (forall k | 0 <= k < |w.tracks| && k != c :: w'.tracks[k] == w.tracks[k])
    && (c < |w.tracks| ==> w'.tracks[c] == w.tracks[c].(cancelled := w'.tracks[c].cancelled))
  }

  lemma CancelCloses(w: World, c: nat)
    requires Inv(w) && Enabled(w, Cancel(c))
    ensures OnlyCloses(w, Step(w, Cancel(c)), c)
  {
    hide TrackOk;
    assert Step(w, Cancel(c)).bus.chans == w.bus.chans[c := Chan(w.bus.chans[c].buf, true)];
  }

  /**
   Cancelling.  The channel is unsubscribed and closed at once and for good, with the history, every
   other channel and every other subscriber as they were; whatever happens later, the subscriber sees
   no more than it had by then, and cancelling again changes nothing.
   */
  lemma CancelEnds(ops: seq<Op>, c: nat, more: seq<Op>)
    requires Exec(ops + [Cancel(c)] + more).Some?
    ensures Exec(ops).Some? && Exec(ops + [Cancel(c)]).Some?
    ensures var w, w1, w2 := Exec(ops).value, Exec(ops + [Cancel(c)]).value, Exec(ops + [Cancel(c)] + more).value;
            && c < |w.bus.chans| == |w.tracks| && OnlyCloses(w, w1, c)
            && c < |w2.bus.chans| == |w2.tracks| && w2.bus.chans[c].closed && c !in w2.bus.subs
            && Seen(w2, c) == Seen(w, c) && w2.tracks[c].dropped == w.tracks[c].dropped
            && Enabled(w2, Cancel(c)) && Step(w2, Cancel(c)) == w2
  {
    hide Step, TrackOk;
    var upTo := ops + [Cancel(c)];
    ChansGrow(upTo, more);
    assert upTo[..|ops|] == ops && upTo[|ops|] == Cancel(c);
    Reachable(ops);
    Reachable(upTo);
    CancelCloses(Exec(ops).value, c);
    ClosedStays(upTo, more, c);
    Reachable(upTo + more);
    CancelTwice(Exec(upTo + more).value, c);
    hide Inv;
  }

  lemma CancelTwice(w: World, c: nat)
    requires Inv(w) && c < |w.bus.chans| && c !in w.bus.subs
    ensures Enabled(w, Cancel(c)) && Step(w, Cancel(c)) == w
  {
  }

  /**
   Delivery, in every interleaving.  What a subscriber has been handed, has taken and can still
   take is, in order, part of the full history; until it cancels, that and what it missed add up
   to the history, and it is all of it exactly when no publish has found 64 events in its buffer.
   */
  lemma Delivery(ops: seq<Op>, c: nat)
    requires Exec(ops).Some? && c < |Exec(ops).value.tracks|
    ensures var w := Exec(ops).value; var t := w.tracks[c];
            && |w.tracks| == |w.bus.chans| && |w.bus.chans[c].buf| <= 64
            && (Cancel(c) !in ops ==> !t.cancelled)
            && Subsequence(Seen(w, c), w.bus.history) && t.snapshot <= w.bus.history
            && (!t.cancelled ==> |t.snapshot| + |t.received| + |w.bus.chans[c].buf| + t.dropped == |w.bus.history|)
            && (!t.cancelled ==> (Seen(w, c) == w.bus.history <==> forall i: nat :: !Misses(ops, i, c)))
  {
    Reachable(ops);
    SeenOrDropped(Exec(ops).value, c);
    MissedIffFull(ops, c);
    CancelledByCancel(ops, c);
    assert TrackOk(Exec(ops).value, c);
  }

  /**
   After Close the history is final, every channel is closed, and a subscriber that never
   cancelled and never met a full buffer has the whole of it once it has drained its channel.
   */
  lemma ClosedBusDelivers(ops: seq<Op>, more: seq<Op>, c: nat)
    requires Exec(ops + more).Some? && Exec(ops).Some?
    requires Close in ops && c < |Exec(ops + more).value.tracks|
    ensures var w := Exec(ops + more).value;
            && |w.tracks| == |w.bus.chans| && w.bus.closed
            && w.bus.history == Exec(ops).value.bus.history
            && w.bus.chans[c].closed && c !in w.bus.subs
            && (!w.tracks[c].cancelled && w.tracks[c].dropped == 0 && w.bus.chans[c].buf == [] ==>
                  w.tracks[c].snapshot + w.tracks[c].received == w.bus.history)
  {
    HistoryIsSaid(ops);
    ChansGrow(ops, more);
    Reachable(ops + more);
    SeenOrDropped(Exec(ops + more).value, c);
    assert TrackOk(Exec(ops + more).value, c);
  }

  /** Which operations a run can go on with: all, as far as their channel has been made and has an event to take. */
  lemma GoesOnWith(ops: seq<Op>, op: Op)
    requires Exec(ops).Some?
    ensures var chans := Exec(ops).value.bus.chans;
            Exec(ops + [op]).Some? <==>
              && (op.Cancel? ==> op.c < |chans|)
              && (op.Take? ==> op.c < |chans| && chans[op.c].buf != [])
  {
    assert (ops + [op])[..|ops|] == ops;
    Reachable(ops);
    hide TrackOk, Step;
  }
}
