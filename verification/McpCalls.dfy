/**
 The callers of the JSON-RPC client and its reader goroutine (internal/mcp/stdio_client.go): `Step`
 is one atomic step of any of them, and the theorems hold of every interleaving.
 */
module McpCalls {
  import opened Prelude
  import opened McpClient

  datatype Outcome = WriteError | TimedOut | ClosedEarly | Value(msg: Response) | RpcError(msg: Response)

  predicate Replied(outcome: Outcome) {
    outcome.Value? || outcome.RpcError?
  }

  /** What call makes of a message it receives: an error member becomes the call's error. */
  function ReplyOf(msg: Response): Outcome {
    if msg.error.Some? then RpcError(msg) else Value(msg)
  }

  /** Where a registered call stands; the last two live states are before their critical section. */
  datatype Pc = Writing | Waiting | AfterWriteError | AfterTimeout | Returned(outcome: Outcome)

  /** `born` is the number of messages the reader had parsed when the call registered. */
  datatype Call = Call(id: int, ch: nat, born: nat, pc: Pc)

  datatype Reader = Reading | Sending(ch: nat, msg: Response) | Closing(ch: nat) | Stopped

  datatype WorldData = World(sh: Shared, calls: seq<Call>, reader: Reader, log: seq<Response>)

  /** Channel references always resolve. */
  predicate WellFormed(w: WorldData) {
    && Resolves(w.sh)
    && (forall k | 0 <= k < |w.calls| :: w.calls[k].ch < |w.sh.chans|)
    && (w.reader.Sending? || w.reader.Closing? ==> w.reader.ch < |w.sh.chans|)
  }

  type World = w: WorldData | WellFormed(w) witness World(Shared(0, map[], None, []), [], Reading, [])

  const INITIAL: World := World(Shared(0, map[], None, []), [], Reading, [])

  datatype Label =
    | StartCall                       // first critical section of call
    | Written(k: nat, ok: bool)       // write returns
    | ForgetFailedWrite(k: nat)
    | CtxDone(k: nat)                 // select picks ctx.Done()
    | ForgetTimedOut(k: nat)
    | Receive(k: nat)                 // select picks the channel
    | Deliver(msg: Response)          // reader parsed a line; dispatch's critical section
    | SkipLine                        // reader got a line that does not parse
    | ReaderSend
    | ReaderClose
    | ReadFail(err: string)

  predicate At(w: World, k: nat, pc: Pc) {
    k < |w.calls| && w.calls[k].pc == pc
  }

  /** Whether the step can be taken, leaving aside that a send could block or panic. */
  predicate Enabled(w: World, l: Label) {
    match l
    case StartCall => true
    case Written(k, _) => At(w, k, Writing)
    case ForgetFailedWrite(k) => At(w, k, AfterWriteError)
    case CtxDone(k) => At(w, k, Waiting)
    case ForgetTimedOut(k) => At(w, k, AfterTimeout)
    case Receive(k) => At(w, k, Waiting) && var c := w.sh.chans[w.calls[k].ch]; c.buf != [] || c.closed
    case Deliver(_) => w.reader.Reading?
    case SkipLine => w.reader.Reading?
    case ReaderSend => w.reader.Sending?
    case ReaderClose => w.reader.Closing?
    case ReadFail(_) => w.reader.Reading?
  }

  /** Go panics: send on or close of a closed channel, or one channel closed twice by readLoop. */
  ghost predicate Panics(w: World, l: Label)
    requires Enabled(w, l)
  {
    match l
    case ReaderSend => w.sh.chans[w.reader.ch].closed
    case ReaderClose => w.sh.chans[w.reader.ch].closed
    case ReadFail(_) => exists a <- w.sh.pending ::
      || w.sh.chans[w.sh.pending[a]].closed
      || exists b <- w.sh.pending :: a != b && w.sh.pending[a] == w.sh.pending[b]
    case _ => false
  }

  predicate Blocks(w: World, l: Label)
    requires Enabled(w, l)
  {
    l.ReaderSend? && |w.sh.chans[w.reader.ch].buf| >= CAPACITY
  }

  function SetPc(w: World, k: nat, pc: Pc): World
    requires k < |w.calls|
  {
    w.(calls := w.calls[k := w.calls[k].(pc := pc)])
  }

  function Step(w: World, l: Label): World
    requires Enabled(w, l)
  {
    match l
    case StartCall =>
      if w.sh.readErr.Some? then w
      else w.(sh := Registered(w.sh),
              calls := w.calls + [Call(w.sh.nextID + 1, |w.sh.chans|, |w.log|, Writing)])
    case Written(k, ok) => SetPc(w, k, if ok then Waiting else AfterWriteError)
    case ForgetFailedWrite(k) => SetPc(w.(sh := Forgotten(w.sh, w.calls[k].id)), k, Returned(WriteError))
    case CtxDone(k) => SetPc(w, k, AfterTimeout)
    case ForgetTimedOut(k) => SetPc(w.(sh := Forgotten(w.sh, w.calls[k].id)), k, Returned(TimedOut))
    case Receive(k) =>
      var ch := w.calls[k].ch;
      if w.sh.chans[ch].buf == [] then SetPc(w, k, Returned(ClosedEarly))
      else SetPc(w.(sh := Received(w.sh, ch)), k, Returned(ReplyOf(w.sh.chans[ch].buf[0])))
    case Deliver(msg) =>
      var w' := w.(log := w.log + [msg]);
      if msg.id.Some? && msg.id.value in w.sh.pending then
        w'.(sh := Forgotten(w.sh, msg.id.value), reader := Sending(w.sh.pending[msg.id.value], msg))
      else w'
    case SkipLine => w
    case ReaderSend => w.(sh := Sent(w.sh, w.reader.ch, w.reader.msg), reader := Closing(w.reader.ch))
    case ReaderClose => w.(sh := Closed(w.sh, w.reader.ch), reader := Reading)
    case ReadFail(err) => w.(sh := Failed(w.sh, err), reader := Stopped)
  }

  /** The world after the labels in order, if each was enabled when its turn came. */
  function Exec(ls: seq<Label>): Option<World> {
    if ls == [] then Some(INITIAL)
    else
      var n := |ls| - 1;
      match Exec(ls[..n])
      case None => None
      case Some(w) => if Enabled(w, ls[n]) then Some(Step(w, ls[n])) else None
  }

  // ---------------------------------------------------------------------------------------------
  // What a call should get: the first message carrying its id among those parsed since it began.

  function Answer(log: seq<Response>, born: nat, id: int): Option<Response> {
    if |log| <= born then None
    else
      var n := |log| - 1;
      var earlier := Answer(log[..n], born, id);
      if earlier.Some? then earlier
      else if log[n].id == Some(id) then Some(log[n])
      else None
  }

  /** The j-th message is the first one with the id since the call began. */
  ghost predicate IsFirst(log: seq<Response>, born: nat, id: int, j: int) {
    born <= j < |log| && log[j].id == Some(id) && forall i | born <= i < j :: log[i].id != Some(id)
  }

  lemma {:induction false} AnswerIsFirst(log: seq<Response>, born: nat, id: int)
    ensures Answer(log, born, id).None? <==> forall j | born <= j < |log| :: log[j].id != Some(id)
    ensures forall j | IsFirst(log, born, id, j) :: Answer(log, born, id) == Some(log[j])
    ensures Answer(log, born, id).Some? ==>
              exists j :: IsFirst(log, born, id, j) && log[j] == Answer(log, born, id).value
  {
    if |log| <= born {
    } else {
      var n := |log| - 1;
      AnswerIsFirst(log[..n], born, id);
      hide IsFirst;
      FirstGrows(log, born, id);
      if Answer(log[..n], born, id).Some? {
        var j :| IsFirst(log[..n], born, id, j) && log[..n][j] == Answer(log[..n], born, id).value;
        assert IsFirst(log, born, id, j) && log[j] == log[..n][j];
      }
    }
  }

  lemma FirstGrows(log: seq<Response>, born: nat, id: int)
    requires |log| > born
    ensures var n := |log| - 1;
            && (forall j | IsFirst(log[..n], born, id, j) :: IsFirst(log, born, id, j))
            && (forall j | IsFirst(log, born, id, j) :: j == n || IsFirst(log[..n], born, id, j))
            && (forall j | born <= j < n :: log[j] == log[..n][j])
            && (log[n].id == Some(id) && (forall j | born <= j < n :: log[j].id != Some(id)) ==>
                  IsFirst(log, born, id, n))
  {
  }

  lemma AnswerExtends(log: seq<Response>, msg: Response, born: nat, id: int)
    requires born <= |log|
    ensures Answer(log + [msg], born, id) ==
            if Answer(log, born, id).Some? then Answer(log, born, id)
            else if msg.id == Some(id) then Some(msg) else None
  {
    assert (log + [msg])[..|log|] == log;
  }

  // ---------------------------------------------------------------------------------------------
  // The invariant.

  ghost function Due(w: World, k: nat): Option<Response>
    requires k < |w.calls|
  {
    Answer(w.log, w.calls[k].born, w.calls[k].id)
  }

  predicate Answered(pc: Pc) {
    pc.Returned? && (Replied(pc.outcome) || pc.outcome.ClosedEarly?)
  }

  /** The k-th call, its channel, and who is responsible for that channel. */
  ghost predicate CallOk(w: World, k: nat)
    requires k < |w.calls| == |w.sh.chans|
  {
    var c, ch, due := w.calls[k], w.sh.chans[k], Due(w, k);
    var inHand := w.reader.Sending? && w.reader.ch == k;
    && c.id == k + 1 && c.ch == k && c.born <= |w.log|
    && (c.id in w.sh.pending ==> !c.pc.Returned? && due.None? && ch == NEW_CHAN && w.sh.pending[c.id] == k)
    && (inHand ==> c.id !in w.sh.pending && due == Some(w.reader.msg) && ch == NEW_CHAN && !Answered(c.pc))
    && (w.reader == Closing(k) ==>
          && c.id !in w.sh.pending && !ch.closed && due.Some? && c.pc != Returned(ClosedEarly)
          && (ch.buf == [due.value] || c.pc == Returned(ReplyOf(due.value))))
    && (ch.buf != [] ==> due.Some? && ch.buf == [due.value] && !Answered(c.pc))
    && (c.pc.Returned? && Replied(c.pc.outcome) ==>
          due.Some? && c.pc.outcome == ReplyOf(due.value) && ch.buf == [])
    && (ch.closed && ch.buf == [] && !(c.pc.Returned? && Replied(c.pc.outcome)) ==> due.None? && w.reader.Stopped?)
    && (c.pc == Returned(ClosedEarly) ==> ch.closed && ch.buf == [])
    && (ch.buf != [] || (c.pc.Returned? && Replied(c.pc.outcome)) ==> ch.closed || w.reader == Closing(k))
    && (c.pc.Writing? || c.pc.Waiting? ==> c.id in w.sh.pending || inHand || ch.buf != [] || ch.closed)
  }

  ghost predicate Inv(w: World) {
    && w.sh.nextID == |w.calls| == |w.sh.chans|
    && (forall id <- w.sh.pending :: 1 <= id <= |w.calls|)
    && (w.sh.readErr.Some? <==> w.reader.Stopped?)
    && (w.reader.Stopped? ==> w.sh.pending == map[])
    && (forall k | 0 <= k < |w.calls| :: CallOk(w, k))
  }

  // One call at a time: no step of any goroutine breaks what is known about call k.

  lemma CallerKeepsOwnCall(w: World, l: Label)
    requires Inv(w) && Enabled(w, l)
    requires l.Written? || l.ForgetFailedWrite? || l.CtxDone? || l.ForgetTimedOut?
    ensures CallOk(Step(w, l), l.k)
  {
    hide Answer;
    assert CallOk(w, l.k);
  }

  lemma CallerKeepsOtherCall(w: World, l: Label, k: nat)
    requires Inv(w) && Enabled(w, l) && k < |w.calls|
    requires (l.Written? || l.ForgetFailedWrite? || l.CtxDone? || l.ForgetTimedOut?) && l.k != k
    ensures CallOk(Step(w, l), k)
  {
    hide Answer;
    assert CallOk(w, k) && w.calls[l.k].id == l.k + 1 by {
      assert CallOk(w, l.k);
    }
  }

  lemma CallerStepKeepsCall(w: World, l: Label, k: nat)
    requires Inv(w) && Enabled(w, l) && k < |w.calls|
    requires l.Written? || l.ForgetFailedWrite? || l.CtxDone? || l.ForgetTimedOut?
    ensures CallOk(Step(w, l), k)
  {
    hide Inv, CallOk, Step;
    if l.k == k {
      CallerKeepsOwnCall(w, l);
    } else {
      CallerKeepsOtherCall(w, l, k);
    }
  }

  lemma ReceiveKeepsCall(w: World, l: Label, k: nat)
    requires Inv(w) && Enabled(w, l) && k < |w.calls|
    requires l.Receive?
    ensures CallOk(Step(w, l), k)
  {
    hide Answer;
    assert CallOk(w, k) && CallOk(w, l.k);
  }

  lemma StartKeepsCall(w: World, l: Label, k: nat)
    requires Inv(w) && Enabled(w, l) && k < |w.calls|
    requires l.StartCall?
    ensures |Step(w, l).calls| == |Step(w, l).sh.chans|
    ensures CallOk(Step(w, l), k)
  {
    assert CallOk(w, k);
  }

  lemma DeliverKeepsCall(w: World, l: Label, k: nat)
    requires Inv(w) && Enabled(w, l) && k < |w.calls|
    requires l.Deliver?
    ensures CallOk(Step(w, l), k)
  {
    assert CallOk(w, k);
    AnswerExtends(w.log, l.msg, w.calls[k].born, w.calls[k].id);
    if l.msg.id.Some? && l.msg.id.value in w.sh.pending {
      assert CallOk(w, l.msg.id.value - 1);
    }
  }

  lemma ReaderKeepsCall(w: World, l: Label, k: nat)
    requires Inv(w) && Enabled(w, l) && k < |w.calls|
    requires l.ReaderSend? || l.ReaderClose?
    ensures CallOk(Step(w, l), k)
  {
    assert CallOk(w, k) && CallOk(w, w.reader.ch);
  }

  lemma FailKeepsCall(w: World, l: Label, k: nat)
    requires Inv(w) && Enabled(w, l) && k < |w.calls|
    requires l.ReadFail?
    ensures CallOk(Step(w, l), k)
  {
    assert CallOk(w, k);
    FailAllReaches(w);
  }

  lemma FailAllReaches(w: World)
    requires Inv(w)
    ensures forall k | 0 <= k < |w.calls| :: k in w.sh.pending.Values <==> w.calls[k].id in w.sh.pending
  {
    forall k | 0 <= k < |w.calls|
      ensures k in w.sh.pending.Values <==> w.calls[k].id in w.sh.pending
    {
      assert CallOk(w, k);
      forall id | id in w.sh.pending && w.sh.pending[id] == k
        ensures id == k + 1
      {
        assert CallOk(w, id - 1);
      }
    }
  }

  lemma StepKeepsInv(w: World, l: Label)
    requires Inv(w) && Enabled(w, l)
    ensures Inv(Step(w, l))
  {
    var w' := Step(w, l);
    forall k | 0 <= k < |w'.calls|
      ensures CallOk(w', k)
    {
      if k < |w.calls| {
        match l {
          case StartCall => StartKeepsCall(w, l, k);
          case Receive(_) => ReceiveKeepsCall(w, l, k);
          case Deliver(_) => DeliverKeepsCall(w, l, k);
          case ReaderSend => ReaderKeepsCall(w, l, k);
          case ReaderClose => ReaderKeepsCall(w, l, k);
          case ReadFail(_) => FailKeepsCall(w, l, k);
          case SkipLine =>
          case _ => CallerStepKeepsCall(w, l, k);
        }
      }
    }
  }

  lemma {:induction false} Reachable(ls: seq<Label>)
    requires Exec(ls).Some?
    ensures Inv(Exec(ls).value)
  {
    if ls == [] {
    } else {
      Reachable(ls[..|ls| - 1]);
      StepKeepsInv(Exec(ls[..|ls| - 1]).value, ls[|ls| - 1]);
    }
  }

  // ---------------------------------------------------------------------------------------------
  // Theorems about every interleaving.

  lemma PendingIsReady(w: World)
    requires Inv(w)
    ensures Ready(w.sh)
  {
    forall id | id in w.sh.pending
      ensures w.sh.pending[id] == id - 1 < |w.sh.chans| && w.sh.chans[id - 1] == NEW_CHAN
    {
      assert CallOk(w, id - 1);
    }
    hide CallOk, WellFormed, Inv;
  }

  /**
   No goroutine ever panics on a channel, and the reader's send always finds room: the
   preconditions of Client.FailAll, Send and CloseChan hold whenever their turn comes.
   */
  lemma ChannelDiscipline(ls: seq<Label>, l: Label)
    requires Exec(ls).Some? && Enabled(Exec(ls).value, l)
    ensures Ready(Exec(ls).value.sh)
    ensures !Panics(Exec(ls).value, l) && !Blocks(Exec(ls).value, l)
    ensures l.ReaderSend? ==> Exec(ls).value.sh.chans[Exec(ls).value.reader.ch] == NEW_CHAN
  {
    Reachable(ls);
    var w := Exec(ls).value;
    PendingIsReady(w);
    if w.reader.Sending? || w.reader.Closing? {
      assert CallOk(w, w.reader.ch);
    }
  }

  /** What no step takes back: the read error, the calls made, and what finished calls returned. */
  ghost predicate Later(w: World, w': World) {
    && (w.sh.readErr.Some? ==> w'.sh.readErr == w.sh.readErr)
    && |w.calls| <= |w'.calls|
    && forall k | 0 <= k < |w.calls| && w.calls[k].pc.Returned? :: w'.calls[k] == w.calls[k]
  }

  lemma StepIsLater(w: World, l: Label)
    requires Enabled(w, l) && (w.sh.readErr.Some? ==> w.reader.Stopped?)
    ensures Later(w, Step(w, l))
  {
  }

  lemma LaterIsTransitive(a: World, b: World, c: World)
    ensures Later(a, a) && (Later(a, b) && Later(b, c) ==> Later(a, c))
  {
  }

  lemma {:induction false} Extends(ls: seq<Label>, more: seq<Label>)
    requires Exec(ls + more).Some?
    ensures Exec(ls).Some? && Later(Exec(ls).value, Exec(ls + more).value)
  {
    hide Later, Step, CallOk;
    if more == [] {
      assert ls + more == ls;
      LaterIsTransitive(Exec(ls).value, Exec(ls).value, Exec(ls).value);
    } else {
      var n := |more| - 1;
      assert (ls + more)[..|ls + more| - 1] == ls + more[..n];
      Extends(ls, more[..n]);
      Reachable(ls + more[..n]);
      var w := Exec(ls + more[..n]).value;
      StepIsLater(w, more[n]);
      LaterIsTransitive(Exec(ls).value, w, Step(w, more[n]));
    }
  }

  /**
   No lost wakeup.  Once the reader has recorded its error the pending map is empty and stays
   empty whatever happens next, and every caller still waiting can take its reply or see its
   channel closed.
   */
  lemma NoLostWakeup(ls: seq<Label>, more: seq<Label>)
    requires Exec(ls + more).Some?
    requires Exec(ls).Some? && Exec(ls).value.sh.readErr.Some?
    ensures var w := Exec(ls + more).value;
            && w.sh.readErr == Exec(ls).value.sh.readErr
            && w.sh.pending == map[]
            && forall k | At(w, k, Waiting) :: Enabled(w, Receive(k))
  {
    Extends(ls, more);
    Reachable(ls + more);
    var w := Exec(ls + more).value;
    assert forall k | At(w, k, Waiting) :: CallOk(w, k);
  }

  /**
   Before that, a waiting caller is either still registered, because no message carrying its id
   has been parsed since it began, or the first such message is in its channel or in the
   reader's hands.
   */
  lemma AnswerOnItsWay(ls: seq<Label>, k: nat)
    requires Exec(ls).Some? && At(Exec(ls).value, k, Waiting)
    requires Exec(ls).value.sh.readErr.None?
    ensures var w := Exec(ls).value;
            var c := w.calls[k];
            if c.id in w.sh.pending then Due(w, k).None?
            else
              var due := Due(w, k);
              && due.Some?
              && (w.reader == Sending(c.ch, due.value)
                  || (w.sh.chans[c.ch].buf == [due.value] && Enabled(w, Receive(k))))
  {
    Reachable(ls);
    assert CallOk(Exec(ls).value, k);
  }

  /**
   Correlation.  What a finished call returns is settled by the messages parsed since it began:
   the first one carrying its id if it returned a reply, as an error exactly if that message has
   an error member, and none if it saw its channel closed.  A finished call leaves nothing in
   `pending` and never changes its mind, and the channel of one that has its reply is closed, or
   about to be.
   */
  lemma Correlation(ls: seq<Label>, more: seq<Label>, k: nat)
    requires Exec(ls + more).Some?
    requires Exec(ls).Some? && k < |Exec(ls).value.calls| && Exec(ls).value.calls[k].pc.Returned?
    ensures var c, w := Exec(ls).value.calls[k], Exec(ls + more).value;
            && k < |w.calls| && w.calls[k] == c
            && c.id !in w.sh.pending
            && (Replied(c.pc.outcome) ==>
                  exists j :: IsFirst(w.log, c.born, c.id, j)
                    && w.log[j] == c.pc.outcome.msg && (c.pc.outcome.RpcError? <==> w.log[j].error.Some?))
            && (Replied(c.pc.outcome) ==> w.sh.chans[c.ch].closed || w.reader == Closing(c.ch))
            && (c.pc.outcome.ClosedEarly? ==> forall j | c.born <= j < |w.log| :: w.log[j].id != Some(c.id))
  {
    Extends(ls, more);
    Reachable(ls + more);
    var w := Exec(ls + more).value;
    assert CallOk(w, k);
    AnswerIsFirst(w.log, w.calls[k].born, w.calls[k].id);
  }

  /** Ids and channels are never reused, so no message reaches two callers. */
  lemma OneCallerPerMessage(ls: seq<Label>, a: nat, b: nat)
    requires Exec(ls).Some? && a < |Exec(ls).value.calls| && b < |Exec(ls).value.calls| && a != b
    ensures var ca, cb := Exec(ls).value.calls[a], Exec(ls).value.calls[b];
            && ca.id != cb.id && ca.ch != cb.ch
            && (ca.pc.Returned? && Replied(ca.pc.outcome) && cb.pc.Returned? && Replied(cb.pc.outcome) ==>
                  ca.pc.outcome.msg != cb.pc.outcome.msg)
  {
    Reachable(ls);
    var w := Exec(ls).value;
    assert CallOk(w, a) && CallOk(w, b);
    AnswerIsFirst(w.log, w.calls[a].born, w.calls[a].id);
    AnswerIsFirst(w.log, w.calls[b].born, w.calls[b].id);
  }

  // ---------------------------------------------------------------------------------------------
  // What has happened, from the labels alone.

  /** A step of the goroutine of call k after it has registered. */
  predicate About(l: Label, k: nat) {
    (l.Written? || l.ForgetFailedWrite? || l.CtxDone? || l.ForgetTimedOut? || l.Receive?) && l.k == k
  }

  /** No label of the run is about a call that has not begun. */
  ghost predicate OnlyOf(ls: seq<Label>, n: nat) {
    forall l, k: nat | l in ls && About(l, k) :: k < n
  }

  /** Where call k stands is settled by the labels about it. */
  ghost predicate Story(ls: seq<Label>, k: nat, pc: Pc) {
    && (Written(k, false) in ls <==> pc.AfterWriteError? || pc == Returned(WriteError))
    && (ForgetFailedWrite(k) in ls <==> pc == Returned(WriteError))
    && (Written(k, true) in ls <==> pc.Waiting? || pc.AfterTimeout? || pc == Returned(TimedOut) || Answered(pc))
    && (CtxDone(k) in ls <==> pc.AfterTimeout? || pc == Returned(TimedOut))
    && (ForgetTimedOut(k) in ls <==> pc == Returned(TimedOut))
    && (Receive(k) in ls <==> Answered(pc))
  }

  lemma InSnoc(ls: seq<Label>, l: Label, x: Label)
    ensures x in ls + [l] <==> x in ls || x == l
  {
  }

  lemma OtherPc(w: World, l: Label, k: nat)
    requires Enabled(w, l) && k < |w.calls| && !About(l, k)
    ensures Step(w, l).calls[k].pc == w.calls[k].pc
  {
    hide Registered, Forgotten, Received, Sent, Closed, Failed;
  }

  predicate Moves(l: Label, pc: Pc, pc': Pc) {
    match l
    case Written(_, ok) => pc.Writing? && pc' == if ok then Waiting else AfterWriteError
    case ForgetFailedWrite(_) => pc.AfterWriteError? && pc' == Returned(WriteError)
    case CtxDone(_) => pc.Waiting? && pc'.AfterTimeout?
    case ForgetTimedOut(_) => pc.AfterTimeout? && pc' == Returned(TimedOut)
    case Receive(_) => pc.Waiting? && Answered(pc')
    case _ => pc' == pc
  }

  lemma OwnPc(w: World, l: Label, k: nat)
    requires Enabled(w, l) && k < |w.calls| && About(l, k)
    ensures Moves(l, w.calls[k].pc, Step(w, l).calls[k].pc)
  {
    hide Registered, Forgotten, Received, Sent, Closed, Failed;
  }

  lemma StoryMoves(w: World, ls: seq<Label>, l: Label, k: nat)
    requires Enabled(w, l) && k < |w.calls| && Story(ls, k, w.calls[k].pc)
    ensures Story(ls + [l], k, Step(w, l).calls[k].pc)
  {
    if About(l, k) {
      OwnPc(w, l, k);
      StoryGoesOn(ls, l, k, w.calls[k].pc, Step(w, l).calls[k].pc);
    } else {
      OtherPc(w, l, k);
      StoryStays(ls, l, k, w.calls[k].pc);
    }
    hide Step, Enabled, Story;
  }

  lemma StoryStays(ls: seq<Label>, l: Label, k: nat, pc: Pc)
    requires !About(l, k) && Story(ls, k, pc)
    ensures Story(ls + [l], k, pc)
  {
  }

  lemma StoryGoesOn(ls: seq<Label>, l: Label, k: nat, pc: Pc, pc': Pc)
    requires About(l, k) && Story(ls, k, pc) && Moves(l, pc, pc')
    ensures Story(ls + [l], k, pc')
  {
    InSnoc(ls, l, Written(k, true));
    InSnoc(ls, l, Written(k, false));
    InSnoc(ls, l, ForgetFailedWrite(k));
    InSnoc(ls, l, CtxDone(k));
    InSnoc(ls, l, ForgetTimedOut(k));
    InSnoc(ls, l, Receive(k));
  }

  lemma StoryBegins(ls: seq<Label>, k: nat)
    requires OnlyOf(ls, k)
    ensures Story(ls, k, Writing)
  {
    assert About(Written(k, true), k) && About(Written(k, false), k) && About(ForgetFailedWrite(k), k);
    assert About(CtxDone(k), k) && About(ForgetTimedOut(k), k) && About(Receive(k), k);
  }

  lemma {:induction false} LabelsOfCalls(ls: seq<Label>)
    requires Exec(ls).Some?
    ensures OnlyOf(ls, |Exec(ls).value.calls|)
  {
    if ls == [] {
    } else {
      var n := |ls| - 1;
      LabelsOfCalls(ls[..n]);
      assert ls == ls[..n] + [ls[n]];
      LabelsOfStep(Exec(ls[..n]).value, ls[..n], ls[n]);
    }
  }

  lemma LabelsOfStep(w: World, ls: seq<Label>, l: Label)
    requires Enabled(w, l) && OnlyOf(ls, |w.calls|)
    ensures OnlyOf(ls + [l], |Step(w, l).calls|)
  {
    hide Registered, Forgotten, Received, Sent, Closed, Failed;
  }

  /**
   The story of a call, in every run.  A failed write is reported, never waited for: from then on the
   call forgets its entry and returns the write's error, and only such a call does.  It times out
   exactly when its context ends the wait, and returns a reply, or that the server closed, exactly
   when it receives from its channel.
   */
  lemma {:induction false} CallStory(ls: seq<Label>, k: nat)
    requires Exec(ls).Some? && k < |Exec(ls).value.calls|
    ensures Story(ls, k, Exec(ls).value.calls[k].pc)
  {
    hide Story, Step, Enabled, WellFormed;
    var n := |ls| - 1;
    assert ls == ls[..n] + [ls[n]];
    var w := Exec(ls[..n]).value;
    if k < |w.calls| {
      CallStory(ls[..n], k);
      StoryMoves(w, ls[..n], ls[n], k);
    } else {
      LabelsOfCalls(ls[..n]);
      CallBegins(w, ls[..n], ls[n], k);
    }
  }

  lemma CallBegins(w: World, ls: seq<Label>, l: Label, k: nat)
    requires Enabled(w, l) && |w.calls| <= k < |Step(w, l).calls| && OnlyOf(ls, |w.calls|)
    ensures Story(ls + [l], k, Step(w, l).calls[k].pc)
  {
    hide Registered, Forgotten, Received, Sent, Closed, Failed;
    StoryBegins(ls + [l], k);
  }

  /** The recorded read error is the one the reader met. */
  lemma {:induction false} ReadErrorIsMet(ls: seq<Label>, err: string)
    requires Exec(ls).Some?
    ensures Exec(ls).value.sh.readErr == Some(err) <==> ReadFail(err) in ls
  {
    if ls == [] {
    } else {
      hide Enabled, WellFormed, CallOk, Registered, Forgotten, Received, Sent, Closed;
      var n := |ls| - 1;
      ReadErrorIsMet(ls[..n], err);
      Reachable(ls[..n]);
      InSnoc(ls[..n], ls[n], ReadFail(err));
      assert ls == ls[..n] + [ls[n]];
    }
  }

  /** The messages the reader parsed, in order. */
  function Parsed(ls: seq<Label>): seq<Response> {
    if ls == [] then []
    else
      var n := |ls| - 1;
      Parsed(ls[..n]) + if ls[n].Deliver? then [ls[n].msg] else []
  }

  lemma {:induction false} LogIsParsed(ls: seq<Label>)
    requires Exec(ls).Some?
    ensures Exec(ls).value.log == Parsed(ls)
  {
    if ls == [] {
    } else {
      LogIsParsed(ls[..|ls| - 1]);
      hide Enabled, WellFormed, Registered, Forgotten, Received, Sent, Closed, Failed;
    }
  }

  /** Which steps a run can go on with: everyone can take their next one, and a waiting call can always time out. */
  lemma GoesOnWith(ls: seq<Label>, l: Label)
    requires Exec(ls).Some?
    ensures var w := Exec(ls).value;
            var pc := (k: nat) => if k < |w.calls| then Some(w.calls[k].pc) else None;
            Exec(ls + [l]).Some? <==>
            match l
            case StartCall => true
            case Written(k, _) => pc(k) == Some(Writing)
            case ForgetFailedWrite(k) => pc(k) == Some(AfterWriteError)
            case CtxDone(k) => pc(k) == Some(Waiting)
            case ForgetTimedOut(k) => pc(k) == Some(AfterTimeout)
            case Receive(k) =>
              pc(k) == Some(Waiting) && (w.sh.chans[w.calls[k].ch].closed || w.sh.chans[w.calls[k].ch].buf != [])
            case ReaderSend => w.reader.Sending?
            case ReaderClose => w.reader.Closing?
            case _ => w.reader.Reading?
  {
    assert (ls + [l])[..|ls|] == ls;
    hide Registered, Forgotten, Received, Sent, Closed, Failed;
  }
}
