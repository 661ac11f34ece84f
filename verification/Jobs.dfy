/**
 The job lifecycle (internal/jobs/manager.go, types.go and store.go): a semaphore-limited
 scheduler, set-once contexts, a per-job event bus and the retention sweep, as atomic steps of
 any number of job goroutines, their handlers, watchers, the janitor and whoever ends contexts.
 */
module Jobs {
  import opened Prelude
  import EventBus

  type Event = EventBus.Event
  type Id = string

  datatype Status = Queued | Running | Complete | Error | Expired | Cancelled {
    predicate Terminal() {
      !Queued? && !Running?
    }
  }

  /** ctx.Err(): set at most once. */
  datatype Ctx = Live | DeadlineExceeded | Canceled

  const QUEUE_EVENT := EventBus.Event("queue", "queued", "Job queued")
  const NOT_STARTED := Some("cancelled before start")

  /** The step names finish uses for its last event. */
  predicate Final(e: Event) {
    e.step in {"expire", "cancel", "error", "complete"}
  }

  function FinalEvent(s: Status, expiryNote: string, err: Option<string>): Event
    requires s.Terminal()
  {
    match s
    case Expired => EventBus.Event("expire", "expired", expiryNote)
    case Cancelled => EventBus.Event("cancel", "cancelled", "Job cancelled")
    case Error => EventBus.Event("error", "error", if err.Some? then err.value else "")
    case _ => EventBus.Event("complete", "complete", "Job complete")
  }

  /** The last event says how a job ended, in its own words. */
  ghost predicate SaysHow(last: Event, status: Status, expiryNote: string, errMsg: string) {
    && (last.step == "expire" <==> status.Expired?) && (last.step == "cancel" <==> status.Cancelled?)
    && (last.step == "error" <==> status.Error?) && (last.step == "complete" <==> status.Complete?)
    && (status.Expired? ==> last.status == "expired" && last.message == expiryNote)
    && (status.Cancelled? ==> last.status == "cancelled" && last.message == "Job cancelled")
    && (status.Error? ==> last.status == "error" && last.message == errMsg)
    && (status.Complete? ==> last.status == "complete" && last.message == "Job complete")
  }

  lemma FinalEventSays(s: Status, expiryNote: string, err: Option<string>, errMsg: string)
    requires s.Terminal() && (s.Error? ==> err == Some(errMsg))
    ensures SaysHow(FinalEvent(s, expiryNote, err), s, expiryNote, errMsg)
  {
  }

  function ByError(err: Option<string>): Status {
    if err.Some? then Error else Complete
  }

  /** Where the goroutine of run stands. */
  datatype Pc =
    | Created                     // registered, queue event not yet emitted
    | Waiting                     // in the select for a slot
    | Starting                    // has a slot, status still queued
    | InHandler
    | FirstRead                   // in finish, before the first ctx.Err()
    | SecondRead                  // before the second ctx.Err()
    | Recording(verdict: Status)  // before setStatus
    | RecordingError              // before setError
    | Announcing                  // before the last Emit
    | ClosingBus
    | Releasing                   // deferred: give the slot back
    | Leaving                     // deferred: cancel the context
    | Done

  /**
   One job with its goroutine's locals.  `slot` says that the deferred release is registered;
   `acquired` and `released` only count.
   */
  datatype Job = Job(
    createdAt: int, expiryNote: string, status: Status, errMsg: string, session: Option<int>,
    bus: EventBus.World, ctx: Ctx, pc: Pc, err: Option<string>, slot: bool, acquired: nat, released: nat)

  function NewJob(createdAt: int, expiryNote: string): Job {
    Job(createdAt, expiryNote, Queued, "", None, EventBus.START, Live, Created, None, false, 0, 0)
  }

  datatype Act =
    | EmitQueued | EndCtx(cause: Ctx) | Acquire | GiveUp | SetRunning
    | HandlerEmit(e: Event) | HandlerSession(session: int) | HandlerReturn(err: Option<string>)
    | ReadFirst | ReadSecond | Record | RecordError | Announce | CloseBus | Release | Leave
    | Watch(op: EventBus.Op)

  predicate Allowed(j: Job, a: Act) {
    match a
    case EmitQueued => j.pc.Created?
    case EndCtx(cause) => !cause.Live?
    case Acquire => j.pc.Waiting?
    case GiveUp => j.pc.Waiting? && !j.ctx.Live?
    case SetRunning => j.pc.Starting?
    case HandlerEmit(e) => j.pc.InHandler? && !Final(e)
    case HandlerSession(_) => j.pc.InHandler?
    case HandlerReturn(_) => j.pc.InHandler?
    case ReadFirst => j.pc.FirstRead?
    case ReadSecond => j.pc.SecondRead?
    case Record => j.pc.Recording?
    case RecordError => j.pc.RecordingError?
    case Announce => j.pc.Announcing? && j.status.Terminal()
    case CloseBus => j.pc.ClosingBus?
    case Release => j.pc.Releasing?
    case Leave => j.pc.Leaving?
    case Watch(op) => !op.Publish? && !op.Close? && EventBus.Enabled(j.bus, op)
  }

  function Emit(j: Job, e: Event): Job {
    j.(bus := EventBus.Step(j.bus, EventBus.Publish(e)))
  }

  function Next(j: Job, a: Act): Job
    requires Allowed(j, a)
  {
    match a
    case EmitQueued => Emit(j, QUEUE_EVENT).(pc := Waiting)
    case EndCtx(cause) => if j.ctx.Live? then j.(ctx := cause) else j
    case Acquire => j.(pc := Starting, slot := true, acquired := j.acquired + 1)
    case GiveUp => j.(pc := FirstRead, err := NOT_STARTED)
    case SetRunning => j.(pc := InHandler, status := Running)
    case HandlerEmit(e) => Emit(j, e)
    case HandlerSession(s) => j.(session := Some(s))
    case HandlerReturn(err) => j.(pc := FirstRead, err := err)
    case ReadFirst => j.(pc := if j.ctx.DeadlineExceeded? then Recording(Expired) else SecondRead)
    case ReadSecond => j.(pc := Recording(if j.ctx.Canceled? then Cancelled else ByError(j.err)))
    case Record => j.(pc := if j.pc.verdict.Error? then RecordingError else Announcing, status := j.pc.verdict)
    case RecordError => j.(pc := Announcing, errMsg := if j.err.Some? then j.err.value else "")
    case Announce => Emit(j, FinalEvent(j.status, j.expiryNote, j.err)).(pc := ClosingBus)
    case CloseBus => j.(bus := EventBus.Step(j.bus, EventBus.Close), pc := if j.slot then Releasing else Leaving)
    case Release => j.(pc := Leaving, slot := false, released := j.released + 1)
    case Leave => j.(pc := Done, ctx := if j.ctx.Live? then Canceled else j.ctx)
    case Watch(op) => j.(bus := EventBus.Step(j.bus, op))
  }

  /** What the sweep removes. */
  predicate Sweepable(status: Status, session: Option<int>, createdAt: int, cutoff: int) {
    status.Terminal() && session.None? && createdAt <= cutoff
  }

  /** `jobs` holds every job ever made, `listed` the ids still in the store's map. */
  datatype World = World(max: nat, sem: nat, jobs: map<Id, Job>, listed: set<Id>, sandboxes: map<string, Id>)

  datatype Label =
    | Create(id: Id, createdAt: int, expiryNote: string)
    | Act(id: Id, act: Act)
    | Link(session: string, id: Id)
    | Sweep(id: Id, cutoff: int)      // one iteration of purgeTerminalBefore

  predicate Enabled(w: World, l: Label) {
    match l
    case Create(id, _, _) => id !in w.jobs
    case Act(id, a) =>
      && id in w.jobs && Allowed(w.jobs[id], a)
      && (a.Acquire? ==> w.sem < w.max)
      && (a.Release? ==> w.sem > 0)
    case Link(_, _) => true
    case Sweep(id, _) => id in w.listed && id in w.jobs
  }

  /** The links to none of the given jobs. */
  function Unlinked(sandboxes: map<string, Id>, gone: set<Id>): map<string, Id> {
    map s | s in sandboxes && sandboxes[s] !in gone :: sandboxes[s]
  }

  function Step(w: World, l: Label): World
    requires Enabled(w, l)
  {
    match l
    case Create(id, at, note) => w.(jobs := w.jobs[id := NewJob(at, note)], listed := w.listed + {id})
    case Act(id, a) =>
      w.(jobs := w.jobs[id := Next(w.jobs[id], a)],
         sem := if a.Acquire? then w.sem + 1 else if a.Release? then w.sem - 1 else w.sem)
    case Link(s, id) => w.(sandboxes := w.sandboxes[s := id])
    case Sweep(id, cutoff) =>
      var j := w.jobs[id];
      if Sweepable(j.status, j.session, j.createdAt, cutoff)
      then w.(listed := w.listed - {id}, sandboxes := Unlinked(w.sandboxes, {id}))
      else w
  }

  function Exec(max: nat, ls: seq<Label>): Option<World> {
    if ls == [] then Some(World(max, 0, map[], {}, map[]))
    else
      var n := |ls| - 1;
      match Exec(max, ls[..n])
      case None => None
      case Some(w) => if Enabled(w, ls[n]) then Some(Step(w, ls[n])) else None
  }

  // ---------------------------------------------------------------------------------------------
  // One job.

  predicate Recorded(pc: Pc) {
    pc.RecordingError? || pc.Announcing? || pc.ClosingBus? || Finished(pc)
  }

  predicate InFinish(pc: Pc) {
    pc.FirstRead? || pc.SecondRead? || pc.Recording? || Recorded(pc)
  }

  predicate Finished(pc: Pc) {
    pc.Releasing? || pc.Leaving? || pc.Done?
  }

  function History(j: Job): seq<Event> {
    j.bus.bus.history
  }

  ghost predicate Unfinal(h: seq<Event>) {
    forall i | 0 <= i < |h| :: !Final(h[i])
  }

  /** The queue event first; no final event before the last one, which says how the job ended. */
  ghost predicate HistoryOk(j: Job) {
    var h := History(j);
    && (j.pc.Created? <==> h == [])
    && (h != [] ==> h[0] == QUEUE_EVENT)
    && (if j.pc.ClosingBus? || Finished(j.pc)
        then
          && |h| >= 2 && j.status.Terminal()
          && h[|h| - 1] == FinalEvent(j.status, j.expiryNote, j.err) && Unfinal(h[..|h| - 1])
        else Unfinal(h))
    && (j.bus.bus.closed <==> Finished(j.pc))
  }

  ghost predicate StatusOk(j: Job) {
    && (j.pc.Created? || j.pc.Waiting? || j.pc.Starting? ==> j.status.Queued?)
    && (j.pc.InHandler? ==> j.status.Running?)
    && (j.pc.FirstRead? || j.pc.SecondRead? || j.pc.Recording? ==> j.status == if j.slot then Running else Queued)
    && (j.pc.Recording? ==> j.pc.verdict.Terminal())
    && (Recorded(j.pc) ==> j.status.Terminal())
    && (j.pc.RecordingError? ==> j.status.Error?)
    && (j.pc.Recording? && j.pc.verdict.Error? ==> j.err.Some?)
    && (Recorded(j.pc) && j.status.Error? ==> j.err.Some?)
    && (Recorded(j.pc) && !j.pc.RecordingError? && j.status.Error? ==> j.errMsg == j.err.value)
    && (j.ctx.Live? && j.pc.Recording? ==> j.pc.verdict == ByError(j.err))
    && (j.ctx.Live? && Recorded(j.pc) ==> j.status == ByError(j.err))
  }

  ghost predicate SlotOk(j: Job) {
    && j.acquired == (if j.slot then 1 else 0) + j.released <= 1
    && (j.pc.Created? || j.pc.Waiting? ==> j.acquired == 0)
    && (j.pc.Starting? || j.pc.InHandler? || j.pc.Releasing? ==> j.slot)
    && (j.pc.Leaving? || j.pc.Done? ==> !j.slot)
    && (j.session.Some? ==> j.acquired == 1)
  }

  ghost predicate JobOk(j: Job) {
    && HistoryOk(j) && StatusOk(j) && SlotOk(j) && CtxOk(j)
    && EventBus.Inv(j.bus)
  }

  ghost predicate CtxOk(j: Job) {
    && (j.pc.Done? ==> !j.ctx.Live?)
    && (j.pc == SecondRead && !j.slot ==> j.ctx.Canceled?)
    && (j.pc == FirstRead && !j.slot ==> !j.ctx.Live?)
    && (j.acquired == 0 && j.pc.Recording? ==> j.pc.verdict.Expired? || j.pc.verdict.Cancelled?)
    && (j.acquired == 0 && Recorded(j.pc) ==> j.status.Expired? || j.status.Cancelled?)
  }

  lemma NextKeepsBus(j: Job, a: Act)
    requires JobOk(j) && Allowed(j, a)
    ensures EventBus.Inv(Next(j, a).bus)
  {
    hide HistoryOk, StatusOk, SlotOk;
    match a
    case EmitQueued => EventBus.StepKeepsInv(j.bus, EventBus.Publish(QUEUE_EVENT));
    case HandlerEmit(e) => EventBus.StepKeepsInv(j.bus, EventBus.Publish(e));
    case Announce => EventBus.StepKeepsInv(j.bus, EventBus.Publish(FinalEvent(j.status, j.expiryNote, j.err)));
    case CloseBus => EventBus.StepKeepsInv(j.bus, EventBus.Close);
    case Watch(op) => EventBus.StepKeepsInv(j.bus, op);
    case _ =>
  }

  function Emitted(j: Job, a: Act): seq<Event>
    requires Allowed(j, a)
  {
    match a
    case EmitQueued => [QUEUE_EVENT]
    case HandlerEmit(e) => [e]
    case Announce => [FinalEvent(j.status, j.expiryNote, j.err)]
    case _ => []
  }

  lemma NextBus(j: Job, a: Act)
    requires Allowed(j, a) && (j.bus.bus.closed <==> Finished(j.pc))
    ensures History(Next(j, a)) == History(j) + Emitted(j, a)
    ensures Next(j, a).bus.bus.closed <==> j.bus.bus.closed || a.CloseBus?
  {
    hide FinalEvent, Final;
    if a.Watch? {
      assert History(Next(j, a)) == History(j);
    }
  }

  lemma AnnounceKeepsHistory(j: Job)
    requires JobOk(j) && Allowed(j, Announce)
    ensures HistoryOk(Next(j, Announce))
  {
    hide EventBus.Inv, EventBus.Step, SlotOk, CtxOk, StatusOk;
    NextBus(j, Announce);
    hide Emit, Unfinal, FinalEvent;
    assert History(Next(j, Announce))[..|History(j)|] == History(j);
  }

  lemma EmitKeepsHistory(j: Job, a: Act)
    requires JobOk(j) && Allowed(j, a) && (a.EmitQueued? || a.HandlerEmit?)
    ensures HistoryOk(Next(j, a))
  {
    hide EventBus.Inv, EventBus.Step, SlotOk, CtxOk, StatusOk;
    NextBus(j, a);
    hide Emit, FinalEvent;
  }

  lemma QuietKeepsHistory(j: Job, a: Act)
    requires JobOk(j) && Allowed(j, a) && !a.EmitQueued? && !a.HandlerEmit? && !a.Announce?
    ensures HistoryOk(Next(j, a))
  {
    hide EventBus.Inv, EventBus.Step, SlotOk, CtxOk, Final, FinalEvent, Unfinal, Emit;
    NextBus(j, a);
    assert Emitted(j, a) == [];
    assert History(Next(j, a)) == History(j);
    hide Emitted, History;
  }

  lemma NextKeepsHistory(j: Job, a: Act)
    requires JobOk(j) && Allowed(j, a)
    ensures HistoryOk(Next(j, a))
  {
    hide JobOk, HistoryOk, Next, Allowed;
    if a.Announce? {
      AnnounceKeepsHistory(j);
    } else if a.EmitQueued? || a.HandlerEmit? {
      EmitKeepsHistory(j, a);
    } else {
      QuietKeepsHistory(j, a);
    }
  }

  lemma NextKeepsStatus(j: Job, a: Act)
    requires JobOk(j) && Allowed(j, a)
    ensures StatusOk(Next(j, a))
  {
    hide EventBus.Inv, EventBus.Step, HistoryOk;
  }

  lemma NextKeepsSlot(j: Job, a: Act)
    requires JobOk(j) && Allowed(j, a)
    ensures SlotOk(Next(j, a)) && CtxOk(Next(j, a))
  {
    hide EventBus.Inv, EventBus.Step, HistoryOk, StatusOk;
  }

  lemma NextKeepsJob(j: Job, a: Act)
    requires JobOk(j) && Allowed(j, a)
    ensures JobOk(Next(j, a))
  {
    NextKeepsBus(j, a);
    NextKeepsHistory(j, a);
    NextKeepsStatus(j, a);
    NextKeepsSlot(j, a);
    hide Next, EventBus.Inv, HistoryOk, StatusOk, SlotOk, CtxOk;
  }

  /**
   The status a job is bound to end with, as soon as nothing can change it: the cause of its
   context if that ends before finish first looks, and so on through finish.
   */
  function Fate(j: Job): Option<Status> {
    match j.pc
    case SecondRead =>
      if j.ctx.Canceled? then Some(Cancelled)
      else if j.ctx.DeadlineExceeded? then Some(ByError(j.err))
      else None
    case Recording(verdict) => Some(verdict)
    case _ =>
      if Recorded(j.pc) then Some(j.status)
      else if j.ctx.DeadlineExceeded? then Some(Expired)
      else if j.ctx.Canceled? then Some(Cancelled)
      else None
  }

  function Rank(s: Status): nat {
    if s.Queued? then 0 else if s.Running? then 1 else 2
  }

  /** What never goes backwards between two moments of one job. */
  ghost predicate Forward(j: Job, j': Job) {
    && Rank(j.status) <= Rank(j'.status)
    && (j.status.Terminal() ==> j'.status == j.status && j'.session == j.session)
    && (Fate(j).Some? ==> Fate(j') == Fate(j))
    && (j.session.Some? ==> j'.session.Some?)
    && History(j) <= History(j')
    && (InFinish(j.pc) ==> InFinish(j'.pc) && j'.err == j.err)
    && j.createdAt == j'.createdAt && j.expiryNote == j'.expiryNote
  }

  lemma NextKeepsFate(j: Job, a: Act)
    requires JobOk(j) && Allowed(j, a) && Fate(j).Some?
    ensures Fate(Next(j, a)) == Fate(j)
  {
    hide EventBus.Inv, EventBus.Step, HistoryOk, FinalEvent, Final;
  }

  lemma NextKeepsOutcome(j: Job, a: Act)
    requires JobOk(j) && Allowed(j, a)
    ensures var j' := Next(j, a);
            && Rank(j.status) <= Rank(j'.status)
            && (j.status.Terminal() ==> j'.status == j.status && j'.session == j.session)
            && (j.session.Some? ==> j'.session.Some?)
            && (InFinish(j.pc) ==> InFinish(j'.pc) && j'.err == j.err)
            && j.createdAt == j'.createdAt && j.expiryNote == j'.expiryNote
  {
    hide EventBus.Inv, EventBus.Step, HistoryOk, FinalEvent, Final;
  }

  lemma NextSlot(j: Job, a: Act)
    requires JobOk(j) && Allowed(j, a)
    ensures j.slot == (if a.Acquire? then false else if a.Release? then true else Next(j, a).slot)
    ensures Next(j, a).slot == (if a.Acquire? then true else if a.Release? then false else j.slot)
  {
    hide EventBus.Inv, EventBus.Step, HistoryOk, StatusOk, FinalEvent, Final;
  }

  lemma NextMovesForward(j: Job, a: Act)
    requires JobOk(j) && Allowed(j, a)
    ensures Forward(j, Next(j, a))
    ensures j.slot == (if a.Acquire? then false else if a.Release? then true else Next(j, a).slot)
    ensures Next(j, a).slot == (if a.Acquire? then true else if a.Release? then false else j.slot)
  {
    BusIsClosed(j);
    hide JobOk, Next, Allowed, Fate, Rank, InFinish, Emitted;
    NextBus(j, a);
    NextKeepsOutcome(j, a);
    NextSlot(j, a);
    if Fate(j).Some? {
      NextKeepsFate(j, a);
    }
  }

  lemma BusIsClosed(j: Job)
    requires JobOk(j)
    ensures j.bus.bus.closed <==> Finished(j.pc)
  {
    hide EventBus.Inv, StatusOk, SlotOk, CtxOk;
  }

  lemma ForwardIsPreorder(a: Job, b: Job, c: Job)
    ensures Forward(a, a)
    ensures Forward(a, b) && Forward(b, c) ==> Forward(a, c)
    ensures Forward(a, b) && a.session.Some? ==> b.session.Some?
    ensures Forward(a, b) && a.status.Terminal() ==> b.status == a.status && b.session == a.session
  {
  }

  lemma NewJobOk(createdAt: int, expiryNote: string)
    ensures JobOk(NewJob(createdAt, expiryNote))
  {
  }

  lemma SlotFacts(j: Job)
    requires JobOk(j)
    ensures j.status.Running? ==> j.slot
    ensures j.released <= j.acquired <= 1 && (j.slot <==> j.released < j.acquired)
    ensures (j.pc.Done? || j.pc.Waiting? ==> !j.slot) && (j.pc.Releasing? ==> j.slot)
  {
  }

  /** The status finish settles on, given its two looks at the context and the handler's error. */
  function Outcome(first: Ctx, second: Ctx, err: Option<string>): Status {
    if first.DeadlineExceeded? then Expired
    else if second.Canceled? then Cancelled
    else ByError(err)
  }

  /** The two looks of finish with nothing in between but the context ending as `second`. */
  function Decided(j: Job, second: Ctx): (r: Job)
    requires j.pc.FirstRead? && (!j.ctx.Live? ==> second == j.ctx)
    ensures r == j.(ctx := r.ctx, pc := Recording(Outcome(j.ctx, second, j.err)))
  {
    var j1 := Next(j, ReadFirst);
    var j2 := if second.Live? then j1 else Next(j1, EndCtx(second));
    if j2.pc.SecondRead? then Next(j2, ReadSecond) else j2
  }

  /** The steps of finish after that. */
  function Concluded(j: Job): Job
    requires j.pc.Recording? && j.pc.verdict.Terminal()
  {
    var j1 := Next(j, Record);
    var j2 := if j1.pc.RecordingError? then Next(j1, RecordError) else j1;
    Next(Next(j2, Announce), CloseBus)
  }

  lemma ConcludedEnds(j: Job)
    requires j.pc.Recording? && j.pc.verdict.Terminal() && (j.pc.verdict.Error? ==> j.err.Some?)
    ensures var j', s := Concluded(j), j.pc.verdict;
            && j'.status == s && j'.session == j.session
            && j'.errMsg == (if s.Error? then j.err.value else j.errMsg)
            && j'.bus.bus == EventBus.Shut(EventBus.Published(j.bus.bus, FinalEvent(s, j.expiryNote, j.err)))
  {
    hide FinalEvent, Final, EventBus.Shut, EventBus.Published;
  }

  /**
   The steps of finish with no other step of the job in between but the end of its context settle
   the status by the two looks and the error, and put the event of that status last on a closed bus.
   */
  lemma FinishAloneEnds(j: Job, second: Ctx)
    requires j.pc.FirstRead? && (!j.ctx.Live? ==> second == j.ctx)
    ensures var j' := Concluded(Decided(j, second));
            && (j'.status.Expired? <==> j.ctx.DeadlineExceeded?)
            && (j'.status.Cancelled? <==> !j.ctx.DeadlineExceeded? && second.Canceled?)
            && (j'.status.Error? <==> !j.ctx.DeadlineExceeded? && !second.Canceled? && j.err.Some?)
            && (j'.status.Complete? <==> !j.ctx.DeadlineExceeded? && !second.Canceled? && j.err.None?)
            && j'.session == j.session && j'.errMsg == (if j'.status.Error? then j.err.value else j.errMsg)
            && j'.bus.bus.closed
            && (!j.bus.bus.closed ==>
                  && |History(j')| == |History(j)| + 1 && History(j) <= History(j')
                  && SaysHow(History(j')[|History(j)|], j'.status, j.expiryNote, j'.errMsg))
    ensures var j', s := Concluded(Decided(j, second)), Outcome(j.ctx, second, j.err);
            && j'.status == s
            && j'.bus.bus == EventBus.Shut(EventBus.Published(j.bus.bus, FinalEvent(s, j.expiryNote, j.err)))
  {
    hide Decided, Concluded, FinalEvent, Final, SaysHow;
    var s := Outcome(j.ctx, second, j.err);
    ConcludedEnds(Decided(j, second));
    FinalEventSays(s, j.expiryNote, j.err, if s.Error? then j.err.value else j.errMsg);
  }

  // ---------------------------------------------------------------------------------------------
  // All jobs.

  ghost function Holders(w: World): set<Id> {
    set id | id in w.jobs && w.jobs[id].slot
  }

  ghost function RunningJobs(w: World): set<Id> {
    set id | id in w.jobs && w.jobs[id].status.Running?
  }

  /** A job is finished before it leaves the store, and then has no session. */
  ghost predicate Inv(w: World) {
    && w.sem == |Holders(w)| <= w.max
    && w.listed <= w.jobs.Keys
    && (forall id <- w.jobs :: JobOk(w.jobs[id]))
    && (forall id <- w.jobs :: id in w.listed || (w.jobs[id].status.Terminal() && w.jobs[id].session.None?))
  }

  lemma OneMoreOrLess(a: set<Id>, b: set<Id>, id: Id)
    requires b == a + {id} || b == a - {id}
    ensures |b| == |a| + (if id in b then 1 else 0) - (if id in a then 1 else 0)
  {
    assert id in a ==> a == a - {id} + {id};
  }

  lemma ActHolders(w: World, id: Id, a: Act)
    requires id in w.jobs && JobOk(w.jobs[id]) && Enabled(w, Act(id, a))
    ensures var w' := Step(w, Act(id, a));
            && Holders(w') == (if a.Acquire? then Holders(w) + {id}
                               else if a.Release? then Holders(w) - {id} else Holders(w))
            && (a.Acquire? ==> id !in Holders(w)) && (a.Release? ==> id in Holders(w))
  {
    hide JobOk, Next, Allowed;
    NextSlot(w.jobs[id], a);
  }

  lemma ActCountsHolders(w: World, id: Id, a: Act)
    requires Inv(w) && Enabled(w, Act(id, a))
    ensures Step(w, Act(id, a)).sem == |Holders(Step(w, Act(id, a)))| <= w.max
  {
    hide JobOk, Next, Allowed, Holders;
    ActHolders(w, id, a);
    var w' := Step(w, Act(id, a));
    hide Inv;
    if a.Acquire? || a.Release? {
      OneMoreOrLess(Holders(w), Holders(w'), id);
    }
  }

  lemma StepCountsHolders(w: World, l: Label)
    requires Inv(w) && Enabled(w, l)
    ensures Step(w, l).sem == |Holders(Step(w, l))| <= Step(w, l).max == w.max
  {
    hide JobOk, Next, Allowed;
    if l.Act? {
      hide Holders;
      ActCountsHolders(w, l.id, l.act);
    } else {
      assert Holders(Step(w, l)) == Holders(w);
    }
  }

  lemma StepKeepsJob(w: World, l: Label, id: Id)
    requires Inv(w) && Enabled(w, l) && id in w.jobs
    ensures id in Step(w, l).jobs && JobOk(Step(w, l).jobs[id])
    ensures Forward(w.jobs[id], Step(w, l).jobs[id])
    ensures id !in w.listed ==> id !in Step(w, l).listed
    ensures id !in Step(w, l).listed ==> Step(w, l).jobs[id].status.Terminal() && Step(w, l).jobs[id].session.None?
    ensures w.jobs[id].session.Some? && id in w.listed ==> id in Step(w, l).listed
  {
    hide JobOk, Next, Allowed, Forward;
    if l.Act? && l.id == id {
      NextKeepsJob(w.jobs[id], l.act);
      NextMovesForward(w.jobs[id], l.act);
      ForwardIsPreorder(w.jobs[id], Next(w.jobs[id], l.act), w.jobs[id]);
    } else {
      ForwardIsPreorder(w.jobs[id], w.jobs[id], w.jobs[id]);
    }
  }

  lemma StepKeepsInv(w: World, l: Label)
    requires Inv(w) && Enabled(w, l)
    ensures Inv(Step(w, l)) && Step(w, l).max == w.max
  {
    hide JobOk, Next, Allowed;
    StepCountsHolders(w, l);
    var w' := Step(w, l);
    forall id | id in w'.jobs
      ensures JobOk(w'.jobs[id])
      ensures id in w'.listed || (w'.jobs[id].status.Terminal() && w'.jobs[id].session.None?)
    {
      if id in w.jobs {
        StepKeepsJob(w, l, id);
      } else {
        NewJobOk(l.createdAt, l.expiryNote);
      }
    }
  }

  lemma {:induction false} Reachable(max: nat, ls: seq<Label>)
    requires Exec(max, ls).Some?
    ensures Inv(Exec(max, ls).value) && Exec(max, ls).value.max == max
  {
    if ls != [] {
      Reachable(max, ls[..|ls| - 1]);
      StepKeepsInv(Exec(max, ls[..|ls| - 1]).value, ls[|ls| - 1]);
    } else {
      assert Holders(Exec(max, ls).value) == {};
    }
  }

  /** What survives from one moment of a run to any later one, for each job. */
  lemma {:induction false} Extends(max: nat, ls: seq<Label>, more: seq<Label>, id: Id)
    requires Exec(max, ls + more).Some?
    ensures Exec(max, ls).Some?
    ensures var w, w' := Exec(max, ls).value, Exec(max, ls + more).value;
            id in w.jobs ==>
              && id in w'.jobs && Forward(w.jobs[id], w'.jobs[id])
              && (id !in w.listed ==> id !in w'.listed)
              && (w.jobs[id].session.Some? && id in w.listed ==> id in w'.listed)
  {
    hide JobOk, Step, Forward;
    if more == [] {
      assert ls + more == ls;
      var w := Exec(max, ls).value;
      if id in w.jobs {
        ForwardIsPreorder(w.jobs[id], w.jobs[id], w.jobs[id]);
      }
    } else {
      var n := |more| - 1;
      assert (ls + more)[..|ls + more| - 1] == ls + more[..n];
      Extends(max, ls, more[..n], id);
      Reachable(max, ls + more[..n]);
      var w, mid := Exec(max, ls).value, Exec(max, ls + more[..n]).value;
      if id in w.jobs {
        StepKeepsJob(mid, more[n], id);
        ForwardIsPreorder(w.jobs[id], mid.jobs[id], Step(mid, more[n]).jobs[id]);
      }
    }
  }

  // ---------------------------------------------------------------------------------------------
  // Theorems about every run.

  /**
   Concurrency limit.  Tokens are held by exactly the jobs whose release is still to come, every
   running job holds one, and a job takes at most one; a finished job, however it ended, has
   given back what it took.
   */
  lemma ConcurrencyLimit(max: nat, ls: seq<Label>)
    requires Exec(max, ls).Some?
    ensures var w := Exec(max, ls).value;
            && |RunningJobs(w)| <= w.sem == |Holders(w)| <= max
            && RunningJobs(w) <= Holders(w)
            && (forall id <- w.jobs :: w.jobs[id].released <= w.jobs[id].acquired <= 1)
            && (forall id <- w.jobs :: id in Holders(w) <==> w.jobs[id].released < w.jobs[id].acquired)
            && (forall id <- w.jobs :: w.jobs[id].pc.Done? ==> id !in Holders(w))
            && (forall id <- w.jobs :: w.jobs[id].pc.Releasing? ==> Enabled(w, Act(id, Release)))
            && ((forall id <- w.jobs :: w.jobs[id].pc.Done?) ==> w.sem == 0)
  {
    hide JobOk, Exec;
    Reachable(max, ls);
    var w := Exec(max, ls).value;
    forall id | id in w.jobs
      ensures w.jobs[id].status.Running? ==> w.jobs[id].slot
      ensures w.jobs[id].released <= w.jobs[id].acquired <= 1
      ensures w.jobs[id].slot <==> w.jobs[id].released < w.jobs[id].acquired
      ensures w.jobs[id].pc.Done? ==> !w.jobs[id].slot
      ensures w.jobs[id].pc.Releasing? ==> w.jobs[id].slot
    {
      SlotFacts(w.jobs[id]);
    }
    SubsetSize(RunningJobs(w), Holders(w));
    forall id | id in w.jobs && w.jobs[id].pc.Releasing?
      ensures w.sem > 0
    {
      SubsetSize({id}, Holders(w));
    }
    if forall id <- w.jobs :: w.jobs[id].pc.Done? {
      assert Holders(w) == {};
    }
  }

  function OwnNext(j: Job): Act {
    match j.pc
    case Created => EmitQueued
    case Waiting => if j.ctx.Live? then Acquire else GiveUp
    case Starting => SetRunning
    case InHandler => HandlerReturn(None)
    case FirstRead => ReadFirst
    case SecondRead => ReadSecond
    case Recording(_) => Record
    case RecordingError => RecordError
    case Announcing => Announce
    case ClosingBus => CloseBus
    case Releasing => Release
    case _ => Leave
  }

  lemma OwnNextAllowed(j: Job)
    requires JobOk(j) && !j.pc.Done?
    ensures Allowed(j, OwnNext(j)) && Next(j, OwnNext(j)).pc != j.pc
    ensures OwnNext(j).Acquire? ==> j.pc.Waiting? && j.ctx.Live?
    ensures OwnNext(j).Release? ==> j.slot
  {
    hide HistoryOk, EventBus.Inv, EventBus.Step;
  }

  /**
   Nothing is ever stuck: until it is done, a job can take a step of its own, unless its context is
   live and every slot is taken, and then each slot belongs to another job that is not done.
   */
  lemma NeverStuck(max: nat, ls: seq<Label>, id: Id)
    requires Exec(max, ls).Some? && id in Exec(max, ls).value.jobs && !Exec(max, ls).value.jobs[id].pc.Done?
    ensures var w := Exec(max, ls).value; var j := w.jobs[id];
            || (Enabled(w, Act(id, OwnNext(j))) && Next(j, OwnNext(j)).pc != j.pc)
            || (j.pc.Waiting? && j.ctx.Live? && |Holders(w)| == max
                && forall h <- Holders(w) :: h != id && !w.jobs[h].pc.Done?)
  {
    hide JobOk, Exec, OwnNext, Next, Allowed;
    Reachable(max, ls);
    var w := Exec(max, ls).value;
    OwnNextAllowed(w.jobs[id]);
    forall h | h in Holders(w)
      ensures !w.jobs[h].pc.Done? && !w.jobs[h].pc.Waiting?
    {
      SlotFacts(w.jobs[h]);
    }
    if OwnNext(w.jobs[id]).Release? {
      SubsetSize({id}, Holders(w));
    }
  }

  /**
   Life of a job.  Its status only moves forward and a terminal one never changes; its history
   only grows, starts with the queue event, and once the bus is closed ends with the one final
   event, which matches the status.
   */
  lemma JobRuns(max: nat, ls: seq<Label>, more: seq<Label>, id: Id)
    requires Exec(max, ls + more).Some?
    requires Exec(max, ls).Some? && id in Exec(max, ls).value.jobs
    ensures id in Exec(max, ls + more).value.jobs
    ensures var j, j' := Exec(max, ls).value.jobs[id], Exec(max, ls + more).value.jobs[id];
            && Forward(j, j')
            && (History(j) != [] ==> History(j)[0] == EventBus.Event("queue", "queued", "Job queued"))
            && (j.bus.bus.closed ==>
                  var n := |History(j)| - 1;
                  && History(j') == History(j)
                  && n >= 1 && j.status in {Complete, Error, Expired, Cancelled}
                  && SaysHow(History(j)[n], j.status, j.expiryNote, j.errMsg)
                  && (j.status.Error? ==> j.err == Some(j.errMsg))
                  && forall i | 0 <= i < n :: History(j)[i].step !in {"expire", "cancel", "error", "complete"})
  {
    hide JobOk, Exec, Forward;
    Extends(max, ls, more, id);
    Reachable(max, ls);
    Reachable(max, ls + more);
    OneJobRuns(Exec(max, ls).value.jobs[id], Exec(max, ls + more).value.jobs[id]);
    if Exec(max, ls).value.jobs[id].bus.bus.closed {
      JobEnds(Exec(max, ls).value.jobs[id]);
    }
  }

  lemma JobEnds(j: Job)
    requires JobOk(j) && j.bus.bus.closed
    ensures |History(j)| >= 2 && j.status in {Complete, Error, Expired, Cancelled}
    ensures SaysHow(History(j)[|History(j)| - 1], j.status, j.expiryNote, j.errMsg)
    ensures j.status.Error? ==> j.err == Some(j.errMsg)
  {
    FinalEventSays(j.status, j.expiryNote, j.err, j.errMsg);
    hide FinalEvent, SaysHow, EventBus.Inv, Unfinal;
  }

  lemma OneJobRuns(j: Job, j': Job)
    requires JobOk(j) && JobOk(j') && Forward(j, j')
    ensures History(j) != [] ==> History(j)[0] == QUEUE_EVENT
    ensures j.bus.bus.closed ==>
              var n := |History(j)| - 1;
              && History(j') == History(j)
              && j.status.Terminal() && n >= 1
              && History(j)[n] == FinalEvent(j.status, j.expiryNote, j.err)
              && forall i | 0 <= i < n :: !Final(History(j)[i])
  {
    if j.bus.bus.closed {
      var n, n' := |History(j)| - 1, |History(j')| - 1;
      assert forall i | 0 <= i < n :: History(j)[i] == History(j)[..n][i];
      assert Final(History(j)[n]);
      assert forall i | 0 <= i < n' :: History(j')[i] == History(j')[..n'][i];
    }
  }

  /**
   A context that has ended before finish first looks decides the status: deadline means expired,
   cancellation means cancelled, whatever the handler returns.
   */
  lemma EndedContextDecides(max: nat, ls: seq<Label>, more: seq<Label>, id: Id)
    requires Exec(max, ls + more).Some?
    requires Exec(max, ls).Some? && id in Exec(max, ls).value.jobs
    requires var j := Exec(max, ls).value.jobs[id];
             !j.ctx.Live? && !j.pc.SecondRead? && !j.pc.Recording? && !Recorded(j.pc)
    requires id in Exec(max, ls + more).value.jobs && Exec(max, ls + more).value.jobs[id].status.Terminal()
    ensures Exec(max, ls + more).value.jobs[id].status ==
            if Exec(max, ls).value.jobs[id].ctx.DeadlineExceeded? then Expired else Cancelled
  {
    hide JobOk, Exec, Forward;
    Extends(max, ls, more, id);
    Reachable(max, ls + more);
    EndsByFate(Exec(max, ls).value.jobs[id], Exec(max, ls + more).value.jobs[id]);
  }

  /** A job that has come to an end got the status it was bound to, and without one its context is live. */
  lemma EndsByFate(j: Job, j': Job)
    requires Forward(j, j') && JobOk(j') && j'.status.Terminal()
    ensures Fate(j).Some? ==> Fate(j) == Some(j'.status)
    ensures InFinish(j.pc) && j'.ctx.Live? ==> j'.status == ByError(j.err)
    ensures InFinish(j.pc) && j'.ctx.Live? && !j'.pc.RecordingError? && j.err.Some? ==> j'.errMsg == j.err.value
  {
    hide HistoryOk, SlotOk, EventBus.Inv;
  }

  /**
   Between the two looks only a cancellation still counts: a deadline that passes then is not
   seen, and the handler's error decides.
   */
  lemma LateEndDecides(max: nat, ls: seq<Label>, more: seq<Label>, id: Id)
    requires Exec(max, ls + more).Some?
    requires Exec(max, ls).Some? && id in Exec(max, ls).value.jobs
    requires Exec(max, ls).value.jobs[id].pc.SecondRead? && !Exec(max, ls).value.jobs[id].ctx.Live?
    requires id in Exec(max, ls + more).value.jobs && Exec(max, ls + more).value.jobs[id].status.Terminal()
    ensures var j := Exec(max, ls).value.jobs[id];
            Exec(max, ls + more).value.jobs[id].status == if j.ctx.Canceled? then Cancelled else ByError(j.err)
  {
    hide JobOk, Exec, Forward;
    Extends(max, ls, more, id);
    Reachable(max, ls + more);
    EndsByFate(Exec(max, ls).value.jobs[id], Exec(max, ls + more).value.jobs[id]);
  }

  /** A job whose context never ends gives error exactly when its handler failed. */
  lemma HandlerDecides(max: nat, ls: seq<Label>, more: seq<Label>, id: Id, err: Option<string>)
    requires Exec(max, ls + [Act(id, HandlerReturn(err))] + more).Some?
    requires var w' := Exec(max, ls + [Act(id, HandlerReturn(err))] + more).value;
             id in w'.jobs && w'.jobs[id].status.Terminal() && w'.jobs[id].ctx.Live?
    ensures var j' := Exec(max, ls + [Act(id, HandlerReturn(err))] + more).value.jobs[id];
            && j'.status == ByError(err)
            && (err.Some? && !j'.pc.RecordingError? ==> j'.errMsg == err.value)
  {
    var upTo := ls + [Act(id, HandlerReturn(err))];
    assert upTo[..|upTo| - 1] == ls;
    hide JobOk, Forward, EventBus.Step;
    Extends(max, upTo, more, id);
    assert Exec(max, upTo).value.jobs[id].err == err && Exec(max, upTo).value.jobs[id].pc.FirstRead?;
    hide Exec, Step;
    Reachable(max, upTo + more);
    EndsByFate(Exec(max, upTo).value.jobs[id], Exec(max, upTo + more).value.jobs[id]);
  }

  lemma ThenAct(ls: seq<Label>, id: Id, a: Act) returns (r: seq<Label>)
    requires Exec(1, ls).Some? && Enabled(Exec(1, ls).value, Act(id, a))
    ensures Exec(1, r).Some? && id in Exec(1, r).value.jobs
    ensures Exec(1, r).value.jobs[id] == Next(Exec(1, ls).value.jobs[id], a)
    ensures a.Acquire? || a.Release? || Exec(1, r).value.sem == Exec(1, ls).value.sem
    ensures Exec(1, r).value.listed == Exec(1, ls).value.listed
    ensures Exec(1, r).value.max == Exec(1, ls).value.max
  {
    r := ls + [Act(id, a)];
    assert r[..|ls|] == ls;
  }

  lemma ReachHandler(id: Id) returns (ls: seq<Label>)
    ensures Exec(1, ls).Some? && id in Exec(1, ls).value.jobs
    ensures var j := Exec(1, ls).value.jobs[id]; j.pc.InHandler? && j.ctx.Live? && j.slot && j.createdAt == 0
    ensures id in Exec(1, ls).value.listed
  {
    ls := [Create(id, 0, "")];
    assert ls[..0] == [];
    assert Exec(1, ls[..0]).Some?;
    hide Exec, Step, EventBus.Step;
    ls := ThenAct(ls, id, EmitQueued);
    ls := ThenAct(ls, id, Acquire);
    ls := ThenAct(ls, id, SetRunning);
  }

  lemma ReachSecondRead(id: Id) returns (ls: seq<Label>)
    ensures Exec(1, ls).Some? && id in Exec(1, ls).value.jobs
    ensures var j := Exec(1, ls).value.jobs[id]; j.pc.SecondRead? && j.ctx.Live? && j.err.None?
  {
    hide Exec, Step, EventBus.Step;
    ls := ReachHandler(id);
    ls := ThenAct(ls, id, HandlerReturn(None));
    ls := ThenAct(ls, id, ReadFirst);
  }

  /** A deadline that passes between the two looks of finish leaves a job complete. */
  lemma LateDeadlineIsMissed(id: Id) returns (ls: seq<Label>)
    ensures Exec(1, ls).Some? && id in Exec(1, ls).value.jobs
    ensures var j := Exec(1, ls).value.jobs[id]; j.ctx.DeadlineExceeded? && j.status.Complete?
  {
    hide Exec, Step, EventBus.Step;
    ls := ReachSecondRead(id);
    ls := ThenAct(ls, id, EndCtx(DeadlineExceeded));
    ls := ThenAct(ls, id, ReadSecond);
    ls := ThenAct(ls, id, Record);
  }

  /**
   Retention.  A job the sweep has removed is finished and has no session; it is never listed
   again, never runs, never changes status and never gains a session.
   */
  lemma RemovedForGood(max: nat, ls: seq<Label>, more: seq<Label>, id: Id)
    requires Exec(max, ls + more).Some?
    requires Exec(max, ls).Some? && id in Exec(max, ls).value.jobs && id !in Exec(max, ls).value.listed
    ensures var w, w' := Exec(max, ls).value, Exec(max, ls + more).value;
            && id in w'.jobs && id !in w'.listed
            && w.jobs[id].status.Terminal() && w'.jobs[id].status == w.jobs[id].status
            && w'.jobs[id].session.None?
  {
    hide JobOk, Exec, Forward;
    Extends(max, ls, more, id);
    Reachable(max, ls);
    var w, w' := Exec(max, ls).value, Exec(max, ls + more).value;
    ForwardIsPreorder(w.jobs[id], w'.jobs[id], w'.jobs[id]);
  }

  /** finish closes the session but never clears it, so a job that ever had one is never removed. */
  lemma SessionPins(max: nat, ls: seq<Label>, more: seq<Label>, id: Id)
    requires Exec(max, ls + more).Some?
    requires Exec(max, ls).Some? && id in Exec(max, ls).value.jobs && Exec(max, ls).value.jobs[id].session.Some?
    ensures id in Exec(max, ls + more).value.listed
  {
    hide JobOk, Exec, Forward;
    Extends(max, ls, more, id);
    Reachable(max, ls);
  }

  lemma ThenRelease(ls: seq<Label>, id: Id) returns (r: seq<Label>)
    requires Exec(1, ls).Some? && id in Exec(1, ls).value.jobs && Exec(1, ls).value.jobs[id].pc.Releasing?
    ensures Exec(1, r).Some? && id in Exec(1, r).value.jobs && Exec(1, r).value.listed == Exec(1, ls).value.listed
    ensures Exec(1, r).value.jobs[id] == Next(Exec(1, ls).value.jobs[id], Release)
  {
    hide Exec, Step, Next;
    ConcurrencyLimit(1, ls);
    r := ThenAct(ls, id, Release);
  }

  lemma ReachAnnouncing(id: Id) returns (ls: seq<Label>)
    ensures Exec(1, ls).Some? && id in Exec(1, ls).value.jobs && id in Exec(1, ls).value.listed
    ensures var j := Exec(1, ls).value.jobs[id];
            j.pc.Announcing? && j.status.Complete? && j.session.Some? && j.slot && j.createdAt == 0
  {
    hide Exec, Step, EventBus.Step, Final, FinalEvent;
    ls := ReachHandler(id);
    ls := ThenAct(ls, id, HandlerSession(0));
    ls := ThenAct(ls, id, HandlerReturn(None));
    ls := ThenAct(ls, id, ReadFirst);
    ls := ThenAct(ls, id, ReadSecond);
    ls := ThenAct(ls, id, Record);
  }

  lemma ReachDone(id: Id) returns (ls: seq<Label>)
    ensures Exec(1, ls).Some? && id in Exec(1, ls).value.jobs && id in Exec(1, ls).value.listed
    ensures var j := Exec(1, ls).value.jobs[id];
            j.pc.Done? && j.status.Complete? && j.session.Some? && j.createdAt == 0
  {
    hide Exec, Step, EventBus.Step, Final, FinalEvent;
    ls := ReachAnnouncing(id);
    ls := ThenAct(ls, id, Announce);
    ls := ThenAct(ls, id, CloseBus);
    ls := ThenRelease(ls, id);
    ls := ThenAct(ls, id, Leave);
  }

  /** Such a run: the job is done, long finished, and has been swept; it is listed still. */
  lemma FinishedSessionStays(id: Id) returns (ls: seq<Label>)
    ensures Exec(1, ls).Some? && ls != [] && ls[|ls| - 1] == Sweep(id, 0)
    ensures var w := Exec(1, ls).value;
            && id in w.jobs && id in w.listed
            && w.jobs[id].pc.Done? && w.jobs[id].status.Complete? && w.jobs[id].createdAt <= 0
  {
    hide Exec;
    ls := ReachDone(id);
    ls := ThenSweep(ls, id, 0);
  }

  lemma ThenSweep(ls: seq<Label>, id: Id, cutoff: int) returns (r: seq<Label>)
    requires Exec(1, ls).Some? && Enabled(Exec(1, ls).value, Sweep(id, cutoff))
    ensures r == ls + [Sweep(id, cutoff)] && Exec(1, r).Some?
    ensures Exec(1, r).value == Step(Exec(1, ls).value, Sweep(id, cutoff))
  {
    r := ls + [Sweep(id, cutoff)];
    assert r[..|ls|] == ls;
  }

  /** The steps of one sweep, in any order of the jobs. */
  function SweepAll(w: World, ids: seq<Id>, cutoff: int): World
    requires w.listed <= w.jobs.Keys && forall k | 0 <= k < |ids| :: ids[k] in w.listed
    requires forall i, k | 0 <= i < k < |ids| :: ids[i] != ids[k]
    decreases |ids|
  {
    if ids == [] then w else SweepAll(Step(w, Sweep(ids[0], cutoff)), ids[1..], cutoff)
  }

  ghost function Swept(w: World, ids: seq<Id>, cutoff: int): set<Id> {
    set id | id in ids && id in w.jobs
             && Sweepable(w.jobs[id].status, w.jobs[id].session, w.jobs[id].createdAt, cutoff)
  }

  /** Together they remove what JobStore.Store.PurgeTerminalBefore removes: the sweepable jobs and the links to them. */
  lemma {:induction false} SweepAllRemoves(w: World, ids: seq<Id>, cutoff: int)
    requires w.listed <= w.jobs.Keys && forall k | 0 <= k < |ids| :: ids[k] in w.listed
    requires forall i, k | 0 <= i < k < |ids| :: ids[i] != ids[k]
    ensures SweepAll(w, ids, cutoff) ==
            w.(listed := w.listed - Swept(w, ids, cutoff), sandboxes := Unlinked(w.sandboxes, Swept(w, ids, cutoff)))
    decreases |ids|
  {
    if ids == [] {
      assert Unlinked(w.sandboxes, {}) == w.sandboxes;
    } else {
      var w' := Step(w, Sweep(ids[0], cutoff));
      SweepAllRemoves(w', ids[1..], cutoff);
      SweptCons(w, w', ids, cutoff);
      hide Swept, Sweepable, Unlinked;
      UnlinkedTwice(w.sandboxes, {ids[0]}, Swept(w', ids[1..], cutoff));
    }
  }

  lemma UnlinkedTwice(sandboxes: map<string, Id>, a: set<Id>, b: set<Id>)
    ensures Unlinked(Unlinked(sandboxes, a), b) == Unlinked(sandboxes, a + b)
  {
  }

  lemma SweptCons(w: World, w': World, ids: seq<Id>, cutoff: int)
    requires ids != [] && ids[0] in w.jobs && w'.jobs == w.jobs
    ensures var j := w.jobs[ids[0]];
            Swept(w, ids, cutoff) ==
            (if Sweepable(j.status, j.session, j.createdAt, cutoff) then {ids[0]} else {}) + Swept(w', ids[1..], cutoff)
  {
    hide Sweepable;
    assert forall id :: id in ids <==> id == ids[0] || id in ids[1..];
  }

  /**
   A watcher that never cancels and never meets a full buffer has, once the bus is closed and its
   channel is drained, the whole history: queue event first, last event saying how the job ended.
   */
  lemma WatcherSeesTheEnd(max: nat, ls: seq<Label>, id: Id, c: nat)
    requires Exec(max, ls).Some? && id in Exec(max, ls).value.jobs
    requires var b := Exec(max, ls).value.jobs[id].bus;
             && b.bus.closed && c < |b.tracks| == |b.bus.chans|
             && !b.tracks[c].cancelled && b.tracks[c].dropped == 0 && b.bus.chans[c].buf == []
    ensures var j := Exec(max, ls).value.jobs[id];
            var seen := j.bus.tracks[c].snapshot + j.bus.tracks[c].received;
            && |seen| >= 2 && seen[0] == EventBus.Event("queue", "queued", "Job queued")
            && j.status in {Complete, Error, Expired, Cancelled}
            && SaysHow(seen[|seen| - 1], j.status, j.expiryNote, j.errMsg)
            && (j.status.Error? ==> j.err == Some(j.errMsg))
  {
    hide Exec;
    Reachable(max, ls);
    var j := Exec(max, ls).value.jobs[id];
    assert JobOk(j);
    EventBus.SeenOrDropped(j.bus, c);
    assert EventBus.Seen(j.bus, c) == j.bus.tracks[c].snapshot + j.bus.tracks[c].received;
    JobEnds(j);
    hide EventBus.Inv, StatusOk, SlotOk, CtxOk, SaysHow, FinalEvent;
  }
}
