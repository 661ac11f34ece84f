/**
 The per-key fixed-window rate limiter (api/middleware_ratelimit.go).  Times are integers; `now`
 is read before the lock is taken, so requests can come in an order that is not that of their readings.
 */
module RateLimit {
  import opened Prelude

  datatype Window = Window(count: int, reset: int)

  type Hits = map<string, Window>

  const EVICT_ABOVE := 4096

  /** The limiter's parameters: requests per window, and the length of a window. */
  datatype Config = Config(limit: int, window: nat)

  predicate Stale(w: Window, now: int) {
    now > w.reset
  }

  predicate Renews(hits: Hits, key: string, now: int) {
    key !in hits || Stale(hits[key], now)
  }

  function Evicted(hits: Hits, now: int): Hits {
    map k | k in hits && !Stale(hits[k], now) :: hits[k]
  }

  predicate Allowed(cfg: Config, hits: Hits, key: string, now: int) {
    Renews(hits, key, now) || hits[key].count < cfg.limit
  }

  /** The hits after a request, with or without the opportunistic sweep. */
  function After(cfg: Config, hits: Hits, key: string, now: int, sweep: bool): Hits {
    if Renews(hits, key, now) then
      var renewed := hits[key := Window(1, now + cfg.window)];
      if sweep && |renewed| > EVICT_ABOVE then Evicted(renewed, now) else renewed
    else if hits[key].count >= cfg.limit then hits
    else hits[key := hits[key].(count := hits[key].count + 1)]
  }

  lemma OwnEffects(cfg: Config, hits: Hits, key: string, now: int)
    ensures var h := After(cfg, hits, key, now, true);
            && key in h
            && (key !in hits || hits[key].reset < now ==>
                  Allowed(cfg, hits, key, now) && h[key] == Window(1, now + cfg.window))
            && (key in hits && now <= hits[key].reset ==>
                  var w := hits[key];
                  && (Allowed(cfg, hits, key, now) <==> w.count < cfg.limit)
                  && h[key] == if w.count < cfg.limit then Window(w.count + 1, w.reset) else w)
  {
  }

  lemma SweepEffects(hits: Hits, k: string, now: int)
    ensures k in Evicted(hits, now) <==> k in hits && now <= hits[k].reset
    ensures k in Evicted(hits, now) ==> Evicted(hits, now)[k] == hits[k]
  {
  }

  lemma AfterRenewal(cfg: Config, hits: Hits, key: string, now: int)
    requires Renews(hits, key, now)
    ensures var renewed := hits[key := Window(1, now + cfg.window)];
            After(cfg, hits, key, now, true) ==
            if |hits.Keys + {key}| > 4096 then Evicted(renewed, now) else renewed
  {
    hide Renews, Evicted;
    var renewed := hits[key := Window(1, now + cfg.window)];
    assert renewed.Keys == hits.Keys + {key} && |renewed| == |renewed.Keys|;
  }

  lemma AfterCount(cfg: Config, hits: Hits, key: string, now: int, k: string)
    requires !Renews(hits, key, now) && k != key
    ensures var h := After(cfg, hits, key, now, true); (k in h <==> k in hits) && (k in h ==> h[k] == hits[k])
  {
  }

  /** Other keys are only touched by a sweep, above 4096 keys. */
  lemma OtherEffects(cfg: Config, hits: Hits, key: string, now: int, k: string)
    requires k != key
    ensures var h := After(cfg, hits, key, now, true);
            var sweeps := (key !in hits || hits[key].reset < now) && |hits.Keys + {key}| > 4096;
            && (k in h <==> k in hits && (sweeps ==> now <= hits[k].reset))
            && (k in h ==> h[k] == hits[k])
  {
    hide After, Evicted;
    if Renews(hits, key, now) {
      AfterRenewal(cfg, hits, key, now);
      SweepEffects(hits[key := Window(1, now + cfg.window)], k, now);
    } else {
      AfterCount(cfg, hits, key, now, k);
    }
  }

  class RateLimiter {
    const cfg: Config
    var hits: Hits

    constructor (rpm: int, window: nat)
      ensures cfg == Config(rpm, window) && hits == map[]
    {
      cfg := Config(rpm, window);
      hits := map[];
    }

    /** `later` is the clock reading of time.Until. */
    method Allow(key: string, now: int, later: int) returns (ok: bool, retry: int)
      modifies this
      ensures ok == Allowed(cfg, old(hits), key, now)
      ensures hits == After(cfg, old(hits), key, now, true)
      ensures retry == if ok then 0 else old(hits)[key].reset - later
      ensures key in hits
      ensures key !in old(hits) || old(hits)[key].reset < now ==> ok && hits[key] == Window(1, now + cfg.window)
      ensures key in old(hits) && now <= old(hits)[key].reset ==>
                var w := old(hits)[key];
                ok == (w.count < cfg.limit) && hits[key] == if ok then Window(w.count + 1, w.reset) else w
      ensures var sweeps := (key !in old(hits) || old(hits)[key].reset < now) && |old(hits).Keys + {key}| > 4096;
              forall k | k != key ::
                && (k in hits <==> k in old(hits) && (sweeps ==> now <= old(hits)[k].reset))
                && (k in hits ==> hits[k] == old(hits)[k])
    {
      OwnEffects(cfg, hits, key, now);
      forall k | k != key
        ensures var h := After(cfg, hits, key, now, true);
                var sweeps := (key !in hits || hits[key].reset < now) && |hits.Keys + {key}| > 4096;
                && (k in h <==> k in hits && (sweeps ==> now <= hits[k].reset))
                && (k in h ==> h[k] == hits[k])
      {
        OtherEffects(cfg, hits, key, now, k);
      }
      if key !in hits || now > hits[key].reset {
        hits := hits[key := Window(1, now + cfg.window)];
        if |hits| > EVICT_ABOVE {
          EvictStale(now);
        }
        return true, 0;
      }
      if hits[key].count >= cfg.limit {
        return false, hits[key].reset - later;
      }
      hits := hits[key := hits[key].(count := hits[key].count + 1)];
      return true, 0;
    }

    method EvictStale(now: int)
      modifies this
      ensures hits == Evicted(old(hits), now)
    {
      var todo := hits.Keys;
      while todo != {}
        invariant todo <= hits.Keys <= old(hits).Keys
        invariant forall k <- hits :: hits[k] == old(hits)[k]
        invariant forall k <- old(hits) :: k in hits <==> k in todo || !Stale(old(hits)[k], now)
        decreases todo
      {
        var k :| k in todo;
        todo := todo - {k};
        if now > hits[k].reset {
          hits := hits - {k};
        }
      }
    }
  }

  // ---------------------------------------------------------------------------------------------
  // Runs.

  datatype Request = Request(key: string, now: int)

  function Run(cfg: Config, rs: seq<Request>, sweep: bool): Hits {
    if rs == [] then map[]
    else
      var r := rs[|rs| - 1];
      After(cfg, Run(cfg, rs[..|rs| - 1], sweep), r.key, r.now, sweep)
  }

  /** Whether the i-th request of the run is admitted. */
  predicate Admitted(cfg: Config, rs: seq<Request>, i: nat, sweep: bool)
    requires i < |rs|
  {
    Allowed(cfg, Run(cfg, rs[..i], sweep), rs[i].key, rs[i].now)
  }

  ghost predicate InOrder(rs: seq<Request>) {
    forall i, j | 0 <= i <= j < |rs| :: rs[i].now <= rs[j].now
  }

  /** The requests of key admitted with a reading in the closed interval of one window length from `from`. */
  function Count(cfg: Config, rs: seq<Request>, key: string, from: int, sweep: bool): nat {
    if rs == [] then 0
    else
      var n := |rs| - 1;
      Count(cfg, rs[..n], key, from, sweep)
      + if rs[n].key == key && from <= rs[n].now <= from + cfg.window && Admitted(cfg, rs, n, sweep) then 1 else 0
  }

  /** What matters of an entry at a time: nothing once it is stale. */
  function Current(hits: Hits, key: string, now: int): Option<Window> {
    if Renews(hits, key, now) then None else Some(hits[key])
  }

  ghost predicate Alike(a: Hits, b: Hits, now: int) {
    forall k :: Current(a, k, now) == Current(b, k, now)
  }

  lemma AfterAlike(cfg: Config, a: Hits, b: Hits, key: string, last: int, now: int)
    requires Alike(a, b, last) && last <= now
    ensures Allowed(cfg, a, key, now) == Allowed(cfg, b, key, now)
    ensures Alike(After(cfg, a, key, now, true), After(cfg, b, key, now, false), now)
  {
    assert Alike(a, b, now) by {
      forall k
        ensures Current(a, k, now) == Current(b, k, now)
      {
        assert Current(a, k, last) == Current(b, k, last);
      }
    }
    assert Current(a, key, now) == Current(b, key, now);
    forall k
      ensures Current(After(cfg, a, key, now, true), k, now) == Current(After(cfg, b, key, now, false), k, now)
    {
      assert Current(a, k, now) == Current(b, k, now);
    }
  }

  lemma {:induction false} RunsAlike(cfg: Config, rs: seq<Request>, now: int)
    requires InOrder(rs) && (rs != [] ==> rs[|rs| - 1].now <= now)
    ensures Alike(Run(cfg, rs, true), Run(cfg, rs, false), now)
  {
    if rs == [] {
    } else {
      var n := |rs| - 1;
      RunsAlike(cfg, rs[..n], rs[n].now);
      AfterAlike(cfg, Run(cfg, rs[..n], true), Run(cfg, rs[..n], false), rs[n].key, rs[n].now, rs[n].now);
      var a, b := Run(cfg, rs, true), Run(cfg, rs, false);
      forall k
        ensures Current(a, k, now) == Current(b, k, now)
      {
        assert Current(a, k, rs[n].now) == Current(b, k, rs[n].now);
      }
    }
  }

  /** Eviction is invisible: with times in order every decision is the same without the sweep. */
  lemma EvictionInvisible(cfg: Config, rs: seq<Request>, i: nat)
    requires InOrder(rs) && i < |rs|
    ensures Admitted(cfg, rs, i, true) == Admitted(cfg, rs, i, false)
  {
    RunsAlike(cfg, rs[..i], rs[i].now);
    AfterAlike(cfg, Run(cfg, rs[..i], true), Run(cfg, rs[..i], false), rs[i].key, rs[i].now, rs[i].now);
  }

  // ---------------------------------------------------------------------------------------------
  // The windows of a key, whatever the order of the readings.

  function Cap(cfg: Config): (c: nat)
    ensures c >= 1
  {
    if cfg.limit < 1 then 1 else cfg.limit
  }

  /** The o-th request opens a window of key. */
  ghost predicate Opens(cfg: Config, rs: seq<Request>, key: string, o: int, sweep: bool) {
    0 <= o < |rs| && rs[o].key == key && Renews(Run(cfg, rs[..o], sweep), key, rs[o].now)
  }

  /** The o-th request opens the last window of key. */
  ghost predicate OpensLast(cfg: Config, rs: seq<Request>, key: string, o: int, sweep: bool) {
    Opens(cfg, rs, key, o, sweep) && forall j | o < j < |rs| :: !Opens(cfg, rs, key, j, sweep)
  }

  /** The requests of key admitted from the o-th on. */
  function AdmittedSince(cfg: Config, rs: seq<Request>, key: string, o: nat, sweep: bool): nat {
    if |rs| <= o then 0
    else
      var n := |rs| - 1;
      AdmittedSince(cfg, rs[..n], key, o, sweep) + if rs[n].key == key && Admitted(cfg, rs, n, sweep) then 1 else 0
  }

  lemma OpensEarlier(cfg: Config, rs: seq<Request>, key: string, o: int, sweep: bool)
    requires rs != [] && o < |rs| - 1
    ensures Opens(cfg, rs, key, o, sweep) <==> Opens(cfg, rs[..|rs| - 1], key, o, sweep)
  {
    if o >= 0 {
      assert rs[..|rs| - 1][..o] == rs[..o];
    }
  }

  lemma OpensLastSnoc(cfg: Config, rs: seq<Request>, key: string, o: int, sweep: bool)
    requires rs != [] && !Opens(cfg, rs, key, |rs| - 1, sweep)
    ensures OpensLast(cfg, rs, key, o, sweep) <==> o < |rs| - 1 && OpensLast(cfg, rs[..|rs| - 1], key, o, sweep)
  {
    var n := |rs| - 1;
    hide Run, Renews;
    assert OpensLast(cfg, rs, key, o, sweep) ==> o < n;
    if o < n {
      OpensEarlier(cfg, rs, key, o, sweep);
      forall j | o < j < n
        ensures Opens(cfg, rs, key, j, sweep) <==> Opens(cfg, rs[..n], key, j, sweep)
      {
        OpensEarlier(cfg, rs, key, j, sweep);
      }
      assert OpensLast(cfg, rs, key, o, sweep) ==> OpensLast(cfg, rs[..n], key, o, sweep) by {
        assert OpensLast(cfg, rs, key, o, sweep) ==> forall j | o < j < n :: !Opens(cfg, rs, key, j, sweep);
      }
    }
  }

  /** An entry counts what was admitted since the last window of its key opened, and ends with that window. */
  ghost predicate Tells(cfg: Config, rs: seq<Request>, key: string, w: Window, o: int, sweep: bool) {
    && OpensLast(cfg, rs, key, o, sweep)
    && 1 <= w.count <= Cap(cfg)
    && w == Window(AdmittedSince(cfg, rs, key, o, sweep), rs[o].now + cfg.window)
  }

  lemma OpeningTells(cfg: Config, rs: seq<Request>, key: string, sweep: bool)
    requires rs != [] && Opens(cfg, rs, key, |rs| - 1, sweep)
    ensures var n := |rs| - 1; Tells(cfg, rs, key, Window(1, rs[n].now + cfg.window), n, sweep)
  {
    var n := |rs| - 1;
    assert AdmittedSince(cfg, rs[..n], key, n, sweep) == 0;
    hide Run;
  }

  /** The last entry of the key after a request that opens none of its windows. */
  function NextEntry(cfg: Config, w: Window, counts: bool): Window {
    if counts && w.count < cfg.limit then w.(count := w.count + 1) else w
  }

  lemma EntryStep(cfg: Config, rs: seq<Request>, key: string, w: Window, o: int, sweep: bool)
    requires rs != [] && !Opens(cfg, rs, key, |rs| - 1, sweep) && Tells(cfg, rs[..|rs| - 1], key, w, o, sweep)
    requires var h := Run(cfg, rs[..|rs| - 1], sweep); key in h ==> h[key] == w
    ensures Tells(cfg, rs, key, NextEntry(cfg, w, rs[|rs| - 1].key == key), o, sweep)
  {
    OpensLastSnoc(cfg, rs, key, o, sweep);
    hide Run, Renews, OpensLast;
  }

  lemma AfterEntry(cfg: Config, hits: Hits, w: Window, key: string, r: Request, sweep: bool)
    requires key in hits ==> hits[key] == w
    requires r.key == key ==> !Renews(hits, key, r.now)
    ensures var h := After(cfg, hits, r.key, r.now, sweep); key in h ==> h[key] == NextEntry(cfg, w, r.key == key)
  {
  }

  /** The last window of a key that ever opened one, and what its entry is unless a sweep took it. */
  lemma {:induction false} LastWindow(cfg: Config, rs: seq<Request>, key: string, o: int, sweep: bool)
      returns (w: Window)
    requires OpensLast(cfg, rs, key, o, sweep)
    ensures Tells(cfg, rs, key, w, o, sweep)
    ensures var h := Run(cfg, rs, sweep); key in h ==> h[key] == w
    decreases |rs|
  {
    var n := |rs| - 1;
    if o == n {
      w := Window(1, rs[n].now + cfg.window);
      OpeningTells(cfg, rs, key, sweep);
    } else {
      OpensLastSnoc(cfg, rs, key, o, sweep);
      w := LastWindow(cfg, rs[..n], key, o, sweep);
      EntryStep(cfg, rs, key, w, o, sweep);
      AfterEntry(cfg, Run(cfg, rs[..n], sweep), w, key, rs[n], sweep);
      w := NextEntry(cfg, w, rs[n].key == key);
      hide Tells, OpensLast, After;
    }
  }

  /** A key with an entry has opened a window. */
  lemma {:induction false} EntryHasOpener(cfg: Config, rs: seq<Request>, key: string, sweep: bool) returns (o: nat)
    requires key in Run(cfg, rs, sweep)
    ensures OpensLast(cfg, rs, key, o, sweep)
  {
    var n := |rs| - 1;
    if Opens(cfg, rs, key, n, sweep) {
      o := n;
    } else {
      o := EntryHasOpener(cfg, rs[..n], key, sweep);
      OpensLastSnoc(cfg, rs, key, o, sweep);
    }
  }

  /** Whatever the order of the readings, a window admits at most `limit` requests. */
  lemma WindowBound(cfg: Config, rs: seq<Request>, key: string, o: int, sweep: bool)
    requires OpensLast(cfg, rs, key, o, sweep)
    ensures 1 <= AdmittedSince(cfg, rs, key, o, sweep) <= Cap(cfg)
  {
    var w := LastWindow(cfg, rs, key, o, sweep);
    hide OpensLast;
  }

  /**
   Whatever the order of the readings, a refused request falls in the last window of its key, which
   has admitted its full number, and does not lie behind that window's end; with readings in order
   it does not lie before its beginning either.
   */
  lemma RefusalMeansFull(cfg: Config, rs: seq<Request>, i: nat, sweep: bool) returns (o: nat)
    requires i < |rs| && !Admitted(cfg, rs, i, sweep)
    ensures o < i && OpensLast(cfg, rs[..i], rs[i].key, o, sweep)
    ensures AdmittedSince(cfg, rs[..i], rs[i].key, o, sweep) == Cap(cfg)
    ensures rs[i].now <= rs[o].now + cfg.window
    ensures InOrder(rs) ==> rs[o].now <= rs[i].now
  {
    o := EntryHasOpener(cfg, rs[..i], rs[i].key, sweep);
    var w := LastWindow(cfg, rs[..i], rs[i].key, o, sweep);
    hide Run;
  }
}
