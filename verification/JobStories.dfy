/**
 What has become of a job, told from the steps of the run alone (internal/jobs/manager.go and
 store.go): what it was created with, what ended its context, what its handler returned and
 emitted, and what links and sweeps have done to the registry.
 */
module JobStories {
  import opened Prelude
  import opened Jobs

  lemma Snoc(ls: seq<Label>, x: Label)
    requires ls != []
    ensures x in ls <==> x in ls[..|ls| - 1] || x == ls[|ls| - 1]
  {
    assert ls == ls[..|ls| - 1] + [ls[|ls| - 1]];
  }

  /** Created once, with this. */
  lemma {:induction false} CreatedAs(max: nat, ls: seq<Label>, id: Id, at: int, note: string)
    requires Exec(max, ls).Some?
    ensures Create(id, at, note) in ls <==>
              id in Exec(max, ls).value.jobs && Exec(max, ls).value.jobs[id].createdAt == at
              && Exec(max, ls).value.jobs[id].expiryNote == note
  {
    if ls == [] {
    } else {
      var n := |ls| - 1;
      var w := Exec(max, ls[..n]).value;
      CreatedAs(max, ls[..n], id, at, note);
      Snoc(ls, Create(id, at, note));
      StepCreates(w, ls[n], id, at, note);
      hide Step, Enabled;
    }
  }

  lemma StepCreates(w: World, l: Label, id: Id, at: int, note: string)
    requires Enabled(w, l)
    ensures id in Step(w, l).jobs <==> id in w.jobs || (l.Create? && l.id == id)
    ensures id in w.jobs ==> Step(w, l).jobs[id].createdAt == w.jobs[id].createdAt
                             && Step(w, l).jobs[id].expiryNote == w.jobs[id].expiryNote
    ensures id in w.jobs ==>
              Step(w, l).jobs[id] == if l.Act? && l.id == id then Next(w.jobs[id], l.act) else w.jobs[id]
    ensures l.Create? && l.id == id ==> id !in w.jobs && Step(w, l).jobs[id] == NewJob(l.createdAt, l.expiryNote)
  {
    hide FinalEvent, Final, EventBus.Step;
  }

  /** The acts of one job in a run, in order. */
  function Acts(ls: seq<Label>, id: Id): seq<Act> {
    if ls == [] then []
    else
      var n := |ls| - 1;
      Acts(ls[..n], id) + if ls[n].Act? && ls[n].id == id then [ls[n].act] else []
  }

  lemma ActsSnoc(ls: seq<Label>, id: Id)
    requires ls != []
    ensures var n := |ls| - 1;
            Acts(ls, id) == if ls[n].Act? && ls[n].id == id then Acts(ls[..n], id) + [ls[n].act] else Acts(ls[..n], id)
  {
  }

  /** A job by itself, from its creation on. */
  function After(j: Job, acts: seq<Act>): Option<Job> {
    if acts == [] then Some(j)
    else
      var n := |acts| - 1;
      match After(j, acts[..n])
      case None => None
      case Some(k) => if Allowed(k, acts[n]) then Some(Next(k, acts[n])) else None
  }

  lemma AfterNothing(j: Job)
    ensures After(j, []) == Some(j)
  {
  }

  lemma AfterSnoc(j: Job, acts: seq<Act>, a: Act)
    ensures After(j, acts + [a]) ==
            match After(j, acts) case None => None case Some(k) => if Allowed(k, a) then Some(Next(k, a)) else None
  {
    assert (acts + [a])[..|acts|] == acts;
    hide Allowed, Next;
  }

  /** What other jobs do makes no difference to a job. */
  lemma {:induction false} JobIsItsActs(max: nat, ls: seq<Label>, id: Id)
    requires Exec(max, ls).Some?
    ensures var jobs := Exec(max, ls).value.jobs;
            if id in jobs then After(NewJob(jobs[id].createdAt, jobs[id].expiryNote), Acts(ls, id)) == Some(jobs[id])
            else Acts(ls, id) == []
  {
    if ls == [] {
    } else {
      var n := |ls| - 1;
      var w := Exec(max, ls[..n]).value;
      JobIsItsActs(max, ls[..n], id);
      StepCreates(w, ls[n], id, 0, "");
      ActsSnoc(ls, id);
      if id in w.jobs && ls[n].Act? && ls[n].id == id {
        AfterSnoc(NewJob(w.jobs[id].createdAt, w.jobs[id].expiryNote), Acts(ls[..n], id), ls[n].act);
      }
      if ls[n].Create? && ls[n].id == id {
        AfterNothing(NewJob(ls[n].createdAt, ls[n].expiryNote));
      }
      hide Next, Allowed, Step, After, Acts;
    }
  }

  lemma {:induction false} AfterOk(at: int, note: string, acts: seq<Act>)
    requires After(NewJob(at, note), acts).Some?
    ensures JobOk(After(NewJob(at, note), acts).value)
  {
    hide JobOk, Next, Allowed;
    if acts == [] {
      NewJobOk(at, note);
    } else {
      var n := |acts| - 1;
      AfterOk(at, note, acts[..n]);
      NextKeepsJob(After(NewJob(at, note), acts[..n]).value, acts[n]);
    }
  }

  // ---------------------------------------------------------------------------------------------
  // The context.

  /** How the context first ended: by its deadline, by a cancellation, or as run returns. */
  function FirstEnd(acts: seq<Act>): Ctx {
    if acts == [] then Live
    else
      var n := |acts| - 1;
      if !FirstEnd(acts[..n]).Live? then FirstEnd(acts[..n])
      else match acts[n]
        case EndCtx(cause) => cause
        case Leave => Canceled
        case _ => Live
  }

  lemma {:induction false} ContextIsFirstEnd(j: Job, acts: seq<Act>)
    requires j.ctx.Live? && After(j, acts).Some?
    ensures After(j, acts).value.ctx == FirstEnd(acts)
  {
    if acts == [] {
    } else {
      var n := |acts| - 1;
      ContextIsFirstEnd(j, acts[..n]);
      hide EventBus.Step, EventBus.Enabled, FinalEvent, Final;
    }
  }

  // ---------------------------------------------------------------------------------------------
  // The handler.

  /** What the handler has emitted, in order. */
  function Spoken(acts: seq<Act>): seq<Event> {
    if acts == [] then []
    else
      var n := |acts| - 1;
      Spoken(acts[..n]) + if acts[n].HandlerEmit? then [acts[n].e] else []
  }

  /** The history: the queue event, what the handler has emitted, and in the end one event more. */
  ghost predicate Tells(j: Job, spoken: seq<Event>) {
    var h := History(j);
    if j.pc.Created? then h == [] == spoken
    else
      && h != [] && h[0] == EventBus.Event("queue", "queued", "Job queued")
      && if j.pc.ClosingBus? || Finished(j.pc) then |h| >= 2 && h[1..|h| - 1] == spoken else h[1..] == spoken
  }

  lemma NextTells(j: Job, a: Act, spoken: seq<Event>)
    requires JobOk(j) && Allowed(j, a) && Tells(j, spoken)
    ensures Tells(Next(j, a), spoken + if a.HandlerEmit? then [a.e] else [])
  {
    BusIsClosed(j);
    NextBus(j, a);
    NextPc(j, a);
    hide JobOk, Next, Allowed, FinalEvent, Final, History;
  }

  /** Where the steps that change the history lead from and to. */
  lemma NextPc(j: Job, a: Act)
    requires Allowed(j, a)
    ensures a.EmitQueued? ==> j.pc.Created? && Next(j, a).pc.Waiting?
    ensures a.HandlerEmit? ==> j.pc.InHandler? && Next(j, a).pc.InHandler?
    ensures a.Announce? ==> j.pc.Announcing? && Next(j, a).pc.ClosingBus?
    ensures !a.EmitQueued? && !a.HandlerEmit? && !a.Announce? ==>
              && (j.pc.Created? <==> Next(j, a).pc.Created?)
              && (j.pc.ClosingBus? || Finished(j.pc) <==> Next(j, a).pc.ClosingBus? || Finished(Next(j, a).pc))
  {
    hide EventBus.Step, EventBus.Enabled, FinalEvent, Final;
  }

  lemma {:induction false} HistoryTells(at: int, note: string, acts: seq<Act>)
    requires After(NewJob(at, note), acts).Some?
    ensures Tells(After(NewJob(at, note), acts).value, Spoken(acts))
  {
    if acts == [] {
    } else {
      hide JobOk, Next, Allowed, Tells;
      var n := |acts| - 1;
      AfterOk(at, note, acts[..n]);
      HistoryTells(at, note, acts[..n]);
      NextTells(After(NewJob(at, note), acts[..n]).value, acts[n], Spoken(acts[..n]));
    }
  }

  lemma SnocAct(acts: seq<Act>, x: Act)
    requires acts != []
    ensures x in acts <==> x in acts[..|acts| - 1] || x == acts[|acts| - 1]
  {
    assert acts == acts[..|acts| - 1] + [acts[|acts| - 1]];
  }

  lemma NextErr(j: Job, a: Act, err: Option<string>)
    requires JobOk(j) && Allowed(j, a)
    ensures InFinish(Next(j, a).pc) && Next(j, a).acquired == 1 && Next(j, a).err == err <==>
            a == HandlerReturn(err) || (InFinish(j.pc) && j.acquired == 1 && j.err == err)
  {
    hide EventBus.Inv, EventBus.Step, EventBus.Enabled, HistoryOk, StatusOk, FinalEvent, Final;
  }

  /** A job that has had a slot is in finish or past it exactly when its handler has returned, with that error. */
  lemma {:induction false} HandlerReturned(at: int, note: string, acts: seq<Act>, err: Option<string>)
    requires After(NewJob(at, note), acts).Some?
    ensures var j := After(NewJob(at, note), acts).value;
            HandlerReturn(err) in acts <==> InFinish(j.pc) && j.acquired == 1 && j.err == err
  {
    if acts == [] {
    } else {
      hide JobOk, Next, Allowed, InFinish;
      var n := |acts| - 1;
      AfterOk(at, note, acts[..n]);
      HandlerReturned(at, note, acts[..n], err);
      NextErr(After(NewJob(at, note), acts[..n]).value, acts[n], err);
      SnocAct(acts, HandlerReturn(err));
    }
  }

  lemma {:induction false} SessionKept(j: Job, acts: seq<Act>, session: int)
    requires After(j, acts).Some? && HandlerSession(session) in acts
    ensures After(j, acts).value.session.Some?
  {
    hide EventBus.Step, EventBus.Enabled, FinalEvent, Final;
    var n := |acts| - 1;
    SnocAct(acts, HandlerSession(session));
    if HandlerSession(session) in acts[..n] {
      SessionKept(j, acts[..n], session);
    }
  }

  /** The status of a job that has ended, and its one error. */
  lemma StatusFromHandler(j: Job)
    requires JobOk(j) && (j.status.Error? || j.status.Complete?) && j.bus.bus.closed
    ensures InFinish(j.pc) && j.acquired == 1
    ensures j.status.Error? ==> j.err == Some(j.errMsg)
  {
    hide EventBus.Inv, HistoryOk;
    BusIsClosed(j);
  }

  // ---------------------------------------------------------------------------------------------

  /**
   The story of a job, in every run.  Its context is ended by the first step that ends it.  On a closed
   bus the history is the queue event, exactly what the handler emitted, in order, and the event of the
   status; an error is the one the handler returned, and so is its message; the note of an expiry is
   the one the job was created with.
   */
  lemma JobStory(max: nat, ls: seq<Label>, id: Id)
    requires Exec(max, ls).Some? && id in Exec(max, ls).value.jobs
    ensures var j, acts := Exec(max, ls).value.jobs[id], Acts(ls, id);
            && Create(id, j.createdAt, j.expiryNote) in ls
            && j.ctx == FirstEnd(acts)
            && (forall s :: HandlerSession(s) in acts ==> j.session.Some?)
            && (j.bus.bus.closed ==>
                  var h := History(j);
                  && |h| >= 2 && h[0] == EventBus.Event("queue", "queued", "Job queued")
                  && h[1..|h| - 1] == Spoken(acts) && SaysHow(h[|h| - 1], j.status, j.expiryNote, j.errMsg)
                  && (j.status.Error? ==> HandlerReturn(Some(j.errMsg)) in acts))
  {
    hide Exec, After, Next, Allowed, JobOk, SaysHow, Final, FinalEvent;
    var j, acts := Exec(max, ls).value.jobs[id], Acts(ls, id);
    CreatedAs(max, ls, id, j.createdAt, j.expiryNote);
    JobIsItsActs(max, ls, id);
    ContextIsFirstEnd(NewJob(j.createdAt, j.expiryNote), acts);
    forall s | HandlerSession(s) in acts
      ensures j.session.Some?
    {
      SessionKept(NewJob(j.createdAt, j.expiryNote), acts, s);
    }
    if j.bus.bus.closed {
      AfterOk(j.createdAt, j.expiryNote, acts);
      HistoryTells(j.createdAt, j.expiryNote, acts);
      BusIsClosed(j);
      JobEnds(j);
      if j.status.Error? {
        StatusFromHandler(j);
        HandlerReturned(j.createdAt, j.expiryNote, acts, Some(j.errMsg));
      }
    }
  }

  // ---------------------------------------------------------------------------------------------
  // The registry.

  /** A job whose turn in a sweep is over is gone exactly if finished, without a session and old enough. */
  ghost predicate SweptExactly(w: World, w': World, id: Id, cutoff: int) {
    && id in w.jobs && w'.jobs == w.jobs && w.listed - {id} <= w'.listed <= w.listed
    && (id !in w'.listed <==>
          && w.jobs[id].status in {Complete, Error, Expired, Cancelled}
          && w.jobs[id].session.None? && w.jobs[id].createdAt <= cutoff)
    && (forall s :: s in w'.sandboxes <==> s in w.sandboxes && (w.sandboxes[s] == id ==> id in w'.listed))
    && (forall s <- w'.sandboxes :: w'.sandboxes[s] == w.sandboxes[s])
  }

  lemma SweepStep(w: World, id: Id, cutoff: int)
    requires Enabled(w, Sweep(id, cutoff))
    ensures SweptExactly(w, Step(w, Sweep(id, cutoff)), id, cutoff)
  {
    hide Next, Allowed;
  }

  lemma SweepsExactly(max: nat, ls: seq<Label>, id: Id, cutoff: int)
    requires Exec(max, ls).Some? && Enabled(Exec(max, ls).value, Sweep(id, cutoff))
    ensures Exec(max, ls + [Sweep(id, cutoff)]).Some?
    ensures SweptExactly(Exec(max, ls).value, Exec(max, ls + [Sweep(id, cutoff)]).value, id, cutoff)
  {
    hide SweptExactly, Step, Enabled;
    assert (ls + [Sweep(id, cutoff)])[..|ls|] == ls;
    SweepStep(Exec(max, ls).value, id, cutoff);
  }

  /** A job that is gone was swept by a cutoff it was old enough for. */
  lemma {:induction false} RemovedBySweep(max: nat, ls: seq<Label>, id: Id) returns (cutoff: int)
    requires Exec(max, ls).Some? && id in Exec(max, ls).value.jobs && id !in Exec(max, ls).value.listed
    ensures Sweep(id, cutoff) in ls && Exec(max, ls).value.jobs[id].createdAt <= cutoff
  {
    var n := |ls| - 1;
    var w := Exec(max, ls[..n]).value;
    StepCreates(w, ls[n], id, 0, "");
    if id in w.jobs && id !in w.listed {
      cutoff := RemovedBySweep(max, ls[..n], id);
      Snoc(ls, Sweep(id, cutoff));
    } else {
      cutoff := if ls[n].Sweep? then ls[n].cutoff else 0;
      Snoc(ls, Sweep(id, cutoff));
    }
    hide Next, Allowed;
  }

  /** A link lasts until its session id is linked again or its job is swept. */
  lemma {:induction false} LinkLasts(max: nat, ls: seq<Label>, more: seq<Label>, s: string, id: Id)
    requires Exec(max, ls + [Link(s, id)] + more).Some?
    requires forall l <- more :: !(l.Link? && l.session == s) && !(l.Sweep? && l.id == id)
    ensures var w := Exec(max, ls + [Link(s, id)] + more).value; s in w.sandboxes && w.sandboxes[s] == id
  {
    hide Next, Allowed, Sweepable;
    var upTo := ls + [Link(s, id)];
    if more == [] {
      assert upTo + more == upTo && upTo[..|ls|] == ls;
    } else {
      var n := |more| - 1;
      assert (upTo + more)[..|upTo + more| - 1] == upTo + more[..n];
      LinkLasts(max, ls, more[..n], s, id);
      assert more[n] in more;
    }
  }

  /** Every link there is has been made. */
  lemma {:induction false} LinksAreMade(max: nat, ls: seq<Label>, s: string)
    requires Exec(max, ls).Some? && s in Exec(max, ls).value.sandboxes
    ensures Link(s, Exec(max, ls).value.sandboxes[s]) in ls
  {
    hide Next, Allowed, Sweepable;
    var n := |ls| - 1;
    var w := Exec(max, ls[..n]).value;
    Snoc(ls, Link(s, Exec(max, ls).value.sandboxes[s]));
    if s in w.sandboxes && w.sandboxes[s] == Exec(max, ls).value.sandboxes[s] {
      LinksAreMade(max, ls[..n], s);
    }
  }

  /** Which steps of its own goroutine, its handler, its context and its watchers a job can take by itself. */
  ghost predicate CanTake(j: Job, a: Act) {
    match a
    case EmitQueued => j.pc.Created?
    case EndCtx(cause) => !cause.Live?
    case Acquire => j.pc.Waiting?
    case GiveUp => j.pc.Waiting? && !j.ctx.Live?
    case SetRunning => j.pc.Starting?
    case HandlerEmit(e) => j.pc.InHandler? && e.step !in {"expire", "cancel", "error", "complete"}
    case HandlerSession(_) => j.pc.InHandler?
    case HandlerReturn(_) => j.pc.InHandler?
    case ReadFirst => j.pc.FirstRead?
    case ReadSecond => j.pc.SecondRead?
    case Record => j.pc.Recording?
    case RecordError => j.pc.RecordingError?
    case Announce => j.pc.Announcing?
    case CloseBus => j.pc.ClosingBus?
    case Release => j.pc.Releasing?
    case Leave => j.pc.Leaving?
    case Watch(op) =>
      match op
      case Subscribe => true
      case Cancel(c) => c < |j.bus.bus.chans|
      case Take(c) => c < |j.bus.bus.chans| && j.bus.bus.chans[c].buf != []
      case _ => false
  }

  lemma AllowedIs(j: Job, a: Act)
    requires JobOk(j)
    ensures Allowed(j, a) <==> CanTake(j, a)
  {
    hide HistoryOk, SlotOk, CtxOk, EventBus.TrackOk;
  }

  /**
   Which steps a run can go on with: each job's own, where only a start needs a free slot as well, a
   new job, any link, and a turn in a sweep of any job that is listed.
   */
  lemma GoesOnWith(max: nat, ls: seq<Label>, l: Label)
    requires Exec(max, ls).Some?
    ensures var w := Exec(max, ls).value;
            Exec(max, ls + [l]).Some? <==>
            match l
            case Create(id, _, _) => id !in w.jobs
            case Link(_, _) => true
            case Sweep(id, _) => id in w.listed
            case Act(id, a) => id in w.jobs && CanTake(w.jobs[id], a) && (a.Acquire? ==> w.sem < max)
  {
    hide Step, Allowed, CanTake;
    assert (ls + [l])[..|ls|] == ls;
    Reachable(max, ls);
    ConcurrencyLimit(max, ls);
    if l.Act? && l.id in Exec(max, ls).value.jobs {
      AllowedIs(Exec(max, ls).value.jobs[l.id], l.act);
      ReleaseHolds(Exec(max, ls).value, l.id, l.act);
    }
    hide JobOk;
  }

  lemma ReleaseHolds(w: World, id: Id, a: Act)
    requires id in w.jobs && (w.jobs[id].pc.Releasing? ==> Enabled(w, Act(id, Release)))
    ensures a.Release? && Allowed(w.jobs[id], a) ==> w.sem > 0
  {
  }
}
