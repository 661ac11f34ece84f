/**
 Job objects and the in-memory registry, updated in place (internal/jobs/types.go, store.go and
 finish in manager.go).
 */
module JobStore {
  import opened Prelude
  import EventBus
  import Jobs

  class Job {
    const createdAt: int
    const expiryNote: string
    const bus: EventBus.Bus
    var status: Jobs.Status
    var errMsg: string
    var session: Option<int>

    constructor (createdAt: int, expiryNote: string)
      ensures this.createdAt == createdAt && this.expiryNote == expiryNote
      ensures status == Jobs.Queued && errMsg == "" && session.None?
      ensures fresh(bus) && bus.View() == EventBus.EMPTY && EventBus.Valid(bus.View())
    {
      this.createdAt, this.expiryNote := createdAt, expiryNote;
      status, errMsg, session := Jobs.Queued, "", None;
      bus := new EventBus.Bus();
    }

    method SetStatus(s: Jobs.Status)
      modifies this`status
      ensures status == s
    {
      status := s;
    }

    method SetError(msg: string)
      modifies this`errMsg
      ensures errMsg == msg
    {
      errMsg := msg;
    }

    method Emit(e: EventBus.Event)
      requires EventBus.Valid(bus.View())
      modifies bus
      ensures EventBus.Valid(bus.View()) && bus.View() == EventBus.Published(old(bus.View()), e)
      ensures bus.history == if old(bus.closed) then old(bus.history) else old(bus.history) + [e]
    {
      bus.Publish(e);
    }

    /** finish, given what its two calls of ctx.Err() return. */
    method Finish(first: Jobs.Ctx, second: Jobs.Ctx, err: Option<string>)
      requires EventBus.Valid(bus.View())
      requires !first.Live? ==> second == first
      modifies this`status, this`errMsg, bus
      ensures status.Expired? <==> first.DeadlineExceeded?
      ensures status.Cancelled? <==> !first.DeadlineExceeded? && second.Canceled?
      ensures status.Error? <==> !first.DeadlineExceeded? && !second.Canceled? && err.Some?
      ensures status.Complete? <==> !first.DeadlineExceeded? && !second.Canceled? && err.None?
      ensures bus.closed && bus.subs == {} && |bus.chans| == |old(bus.chans)|
      ensures old(bus.closed) ==> bus.history == old(bus.history)
      ensures !old(bus.closed) ==>
                && |bus.history| == |old(bus.history)| + 1 && old(bus.history) <= bus.history
                && Jobs.SaysHow(bus.history[|old(bus.history)|], status, expiryNote, errMsg)
      ensures status == Jobs.Outcome(first, second, err)
      ensures errMsg == if status.Error? then err.value else old(errMsg)
      ensures EventBus.Valid(bus.View())
      ensures bus.View() ==
              EventBus.Shut(EventBus.Published(old(bus.View()), Jobs.FinalEvent(status, expiryNote, err)))
    {
      if first.DeadlineExceeded? {
        SetStatus(Jobs.Expired);
        Emit(EventBus.Event("expire", "expired", expiryNote));
      } else if second.Canceled? {
        SetStatus(Jobs.Cancelled);
        Emit(EventBus.Event("cancel", "cancelled", "Job cancelled"));
      } else if err.Some? {
        SetStatus(Jobs.Error);
        SetError(err.value);
        Emit(EventBus.Event("error", "error", err.value));
      } else {
        SetStatus(Jobs.Complete);
        Emit(EventBus.Event("complete", "complete", "Job complete"));
      }
      bus.Close();
    }
  }

  class Store {
    var jobs: map<string, Job>
    var sandboxes: map<string, string>

    constructor ()
      ensures jobs == map[] && sandboxes == map[]
    {
      jobs, sandboxes := map[], map[];
    }

    method Put(id: string, j: Job)
      modifies this`jobs
      ensures jobs == old(jobs)[id := j]
    {
      jobs := jobs[id := j];
    }

    method Get(id: string) returns (j: Option<Job>)
      ensures j == if id in jobs then Some(jobs[id]) else None
    {
      j := if id in jobs then Some(jobs[id]) else None;
    }

    method LinkSandbox(sessionID: string, jobID: string)
      modifies this`sandboxes
      ensures sandboxes == old(sandboxes)[sessionID := jobID]
    {
      sandboxes := sandboxes[sessionID := jobID];
    }

    method JobForSandbox(sessionID: string) returns (j: Option<Job>)
      ensures j == if sessionID in sandboxes && sandboxes[sessionID] in jobs then Some(jobs[sandboxes[sessionID]])
                   else None
      ensures j == Resolve(sessionID)
    {
      if sessionID !in sandboxes {
        return None;
      }
      j := Get(sandboxes[sessionID]);
    }

    ghost function Lookup(id: string): Option<Job>
      reads this
    {
      if id in jobs then Some(jobs[id]) else None
    }

    ghost function Resolve(sessionID: string): Option<Job>
      reads this
    {
      if sessionID in sandboxes then Lookup(sandboxes[sessionID]) else None
    }

    /** The jobs a sweep should remove: finished, without a session, not created after the cutoff. */
    ghost function Sweepable(cutoff: int): set<string>
      reads this, jobs.Values
    {
      set id | id in jobs && jobs[id].createdAt <= cutoff && jobs[id].session.None?
               && jobs[id].status in {Jobs.Complete, Jobs.Error, Jobs.Expired, Jobs.Cancelled}
    }

    /**
     purgeTerminalBefore removes exactly the sweepable jobs, each reported once, and exactly the
     sandbox links pointing to them; every other session id resolves as before.
     */
    method PurgeTerminalBefore(cutoff: int) returns (removed: seq<string>)
      modifies this
      ensures var gone := old(Sweepable(cutoff));
              && jobs == old(jobs) - gone
              && |removed| == |gone| && (forall id :: id in removed <==> id in gone)
              && sandboxes == Jobs.Unlinked(old(sandboxes), gone)
      ensures forall s :: if s in old(sandboxes) && old(sandboxes)[s] in old(Sweepable(cutoff))
                          then Resolve(s).None? && s !in sandboxes
                          else Resolve(s) == old(Resolve(s)) && (s in sandboxes <==> s in old(sandboxes))
    {
      removed := [];
      ghost var gone: set<string> := {};
      var todo := jobs.Keys;
      while todo != {}
        invariant todo <= old(jobs).Keys
        invariant gone == (set id | id in old(Sweepable(cutoff)) && id !in todo)
        invariant jobs == old(jobs) - gone
        invariant sandboxes == Jobs.Unlinked(old(sandboxes), gone)
        invariant |removed| == |gone| && forall id :: id in removed <==> id in gone
        decreases todo
      {
        hide Jobs.Unlinked;
        var id :| id in todo;
        todo := todo - {id};
        Jobs.UnlinkedTwice(old(sandboxes), gone, {id});
        var swept := SweepOne(id, cutoff);
        if swept {
          removed := removed + [id];
          gone := gone + {id};
        }
      }
      assert gone == old(Sweepable(cutoff));
    }

    /** One turn of the loop of purgeTerminalBefore. */
    method SweepOne(id: string, cutoff: int) returns (swept: bool)
      requires id in jobs
      modifies this
      ensures swept == old(id in Sweepable(cutoff))
      ensures jobs == if swept then old(jobs) - {id} else old(jobs)
      ensures sandboxes == if swept then Jobs.Unlinked(old(sandboxes), {id}) else old(sandboxes)
    {
      var j := jobs[id];
      if j.createdAt > cutoff {
        return false;
      }
      if j.status.Terminal() {
        if j.session.Some? {
          return false;
        }
        jobs := jobs - {id};
        DropLinks(id);
        return true;
      }
      return false;
    }

    // The inner loop of purgeTerminalBefore.
    method DropLinks(id: string)
      modifies this`sandboxes
      ensures sandboxes == Jobs.Unlinked(old(sandboxes), {id})
    {
      var todo := sandboxes.Keys;
      while todo != {}
        invariant todo <= sandboxes.Keys <= old(sandboxes).Keys
        invariant forall s <- sandboxes :: sandboxes[s] == old(sandboxes)[s]
        invariant forall s <- old(sandboxes) :: s in sandboxes <==> s in todo || old(sandboxes)[s] != id
        decreases todo
      {
        var s :| s in todo;
        todo := todo - {s};
        if sandboxes[s] == id {
          sandboxes := sandboxes - {s};
        }
      }
    }
  }
}
