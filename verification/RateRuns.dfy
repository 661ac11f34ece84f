/**
 Exactly when the rate limiter's bounds hold (api/middleware_ratelimit.go): for every limit and window
 length there are runs that break them as soon as a clock reading comes late enough.
 */
module RateRuns {
  import opened Prelude
  import opened RateLimit
  import opened RateSkew
  import opened Text

  /** Every run at most d late admits at most b requests of a key in every interval of one window length. */
  ghost predicate Keeps(cfg: Config, d: nat, b: nat, sweep: bool) {
    forall rs, key, from | Late(rs, d) :: Count(cfg, rs, key, from, sweep) <= b
  }

  // ---------------------------------------------------------------------------------------------
  // Runs of one key among others.

  const KEY := "k"

  function Other(i: nat): string {
    "o" + Itoa(i)
  }

  lemma OthersDiffer(i: nat, j: nat)
    ensures Other(i) != KEY && (Other(i) == Other(j) ==> i == j)
  {
    assert Other(i)[0] == 'o';
    if Other(i) == Other(j) {
      assert Other(i)[1..] == Itoa(i) && Other(j)[1..] == Itoa(j);
      ItoaInjective(i, j);
    }
  }

  /** How late the readings of a run may be, and the interval it is seen from. */
  datatype Setup = Setup(cfg: Config, late: nat, from: int, sweep: bool)

  /** What a run has come to: the other keys' entries, the key's own, a last reading, and the count. */
  datatype Stage = Stage(others: Hits, entry: Option<Window>, peak: int, count: nat) {
    function Held(): Hits {
      match entry
      case None => others
      case Some(w) => others[KEY := w]
    }
  }

  ghost predicate Reaches(p: Setup, rs: seq<Request>, s: Stage) {
    && Late(rs, p.late) && (forall i | 0 <= i < |rs| :: rs[i].now <= s.peak)
    && Run(p.cfg, rs, p.sweep) == s.Held()
    && Count(p.cfg, rs, KEY, p.from, p.sweep) == s.count
  }

  ghost predicate Possible(p: Setup, s: Stage) {
    exists rs :: Reaches(p, rs, s)
  }

  function Later(a: int, b: int): int {
    if a < b then b else a
  }

  lemma Breaks(p: Setup, s: Stage, b: nat)
    requires Possible(p, s) && s.count > b
    ensures !Keeps(p.cfg, p.late, b, p.sweep)
  {
    var rs :| Reaches(p, rs, s);
    hide Late, Run, Count;
    assert Count(p.cfg, rs, KEY, p.from, p.sweep) > b;
  }

  function Start(p: Setup): Stage {
    Stage(map[], None, p.from - p.cfg.window, 0)
  }

  lemma StartPossible(p: Setup)
    ensures Possible(p, Start(p))
  {
    assert Reaches(p, [], Start(p));
  }

  lemma LateSnoc(rs: seq<Request>, r: Request, d: nat, peak: int)
    requires Late(rs, d) && (forall i | 0 <= i < |rs| :: rs[i].now <= peak) && peak <= r.now + d
    ensures Late(rs + [r], d)
    ensures forall i | 0 <= i < |rs + [r]| :: (rs + [r])[i].now <= Later(peak, r.now)
  {
  }

  lemma RunSnoc(cfg: Config, rs: seq<Request>, r: Request, key: string, from: int, sweep: bool)
    ensures Run(cfg, rs + [r], sweep) == After(cfg, Run(cfg, rs, sweep), r.key, r.now, sweep)
    ensures Count(cfg, rs + [r], key, from, sweep) ==
            Count(cfg, rs, key, from, sweep) +
            if r.key == key && Allowed(cfg, Run(cfg, rs, sweep), r.key, r.now) then Inside(cfg, from, r.now) else 0
  {
    assert (rs + [r])[..|rs|] == rs;
    hide After, Allowed;
  }

  /** One more request. */
  lemma Then(p: Setup, s: Stage, r: Request, t: Stage)
    requires Possible(p, s) && s.peak <= r.now + p.late && t.peak == Later(s.peak, r.now)
    requires t.Held() == After(p.cfg, s.Held(), r.key, r.now, p.sweep)
    requires var counts := r.key == KEY && Allowed(p.cfg, s.Held(), r.key, r.now);
             t.count == s.count + if counts then Inside(p.cfg, p.from, r.now) else 0
    ensures Possible(p, t)
  {
    hide Late, Run, Count, Allowed, After, Inside, Later;
    var rs :| Reaches(p, rs, s);
    LateSnoc(rs, r, p.late, s.peak);
    RunSnoc(p.cfg, rs, r, KEY, p.from, p.sweep);
    assert Reaches(p, rs + [r], t);
  }

  /** n other keys have entries, of which a reading up to `until` finds none stale. */
  ghost predicate Crowded(others: Hits, n: nat, until: int) {
    && KEY !in others && |others| == n
    && (forall k <- others :: others[k].reset >= until)
    && forall i: nat | i >= n :: Other(i) !in others
  }

  /** The key's entry after a request at `now`. */
  function NextWindow(cfg: Config, entry: Option<Window>, now: int): Window {
    match entry
    case None => Window(1, now + cfg.window)
    case Some(w) =>
      if Stale(w, now) then Window(1, now + cfg.window)
      else if w.count < cfg.limit then w.(count := w.count + 1) else w
  }

  predicate Counts(cfg: Config, entry: Option<Window>, now: int) {
    entry.None? || Stale(entry.value, now) || entry.value.count < cfg.limit
  }

  function KeyNext(p: Setup, s: Stage, now: int): Stage {
    s.(entry := Some(NextWindow(p.cfg, s.entry, now)), peak := Later(s.peak, now),
       count := s.count + if Counts(p.cfg, s.entry, now) then Inside(p.cfg, p.from, now) else 0)
  }

  lemma KeyAfter(cfg: Config, s: Stage, n: nat, until: int, now: int, sweep: bool)
    requires Crowded(s.others, n, until) && now <= until
    ensures After(cfg, s.Held(), KEY, now, sweep) == s.others[KEY := NextWindow(cfg, s.entry, now)]
    ensures Allowed(cfg, s.Held(), KEY, now) <==> Counts(cfg, s.entry, now)
  {
    var renewed := s.others[KEY := Window(1, now + cfg.window)];
    assert s.Held()[KEY := Window(1, now + cfg.window)] == renewed;
    assert Evicted(renewed, now) == renewed;
  }

  lemma KeyThen(p: Setup, s: Stage, n: nat, until: int, now: int)
    requires Possible(p, s) && Crowded(s.others, n, until) && now <= until && s.peak <= now + p.late
    ensures Possible(p, KeyNext(p, s, now))
  {
    hide Possible, Crowded, After, Allowed, NextWindow, Counts, Inside, Later;
    KeyAfter(p.cfg, s, n, until, now, p.sweep);
    Then(p, s, Request(KEY, now), KeyNext(p, s, now));
  }

  lemma Loosen(p: Setup, s: Stage, peak: int)
    requires Possible(p, s) && peak >= s.peak
    ensures Possible(p, s.(peak := peak))
  {
    hide Late, Run, Count;
    var rs :| Reaches(p, rs, s);
    assert Reaches(p, rs, s.(peak := peak));
  }

  /** The stage after k admitted requests at `now` that leave the window w. */
  function Reading(p: Setup, s: Stage, w: Window, now: int, k: nat): Stage {
    s.(entry := Some(w), peak := Later(s.peak, now),
       count := s.count + if Inside(p.cfg, p.from, now) == 1 then k else 0)
  }

  /** k more requests in the key's window, as long as it has room. */
  lemma {:induction false} More(p: Setup, s: Stage, n: nat, until: int, now: int, k: nat)
    requires Possible(p, s) && Crowded(s.others, n, until) && now <= until && s.peak <= now + p.late
    requires s.entry.Some? && !Stale(s.entry.value, now) && 1 <= s.entry.value.count
    requires s.entry.value.count + k <= Cap(p.cfg)
    ensures var w := s.entry.value; Possible(p, Reading(p, s, w.(count := w.count + k), now, k))
  {
    hide Possible, Crowded;
    if k == 0 {
      Loosen(p, s, Later(s.peak, now));
      assert s.(peak := Later(s.peak, now)) == Reading(p, s, s.entry.value, now, 0);
    } else {
      var w := s.entry.value.(count := s.entry.value.count + k - 1);
      var t := Reading(p, s, w, now, k - 1);
      More(p, s, n, until, now, k - 1);
      KeyThen(p, t, n, until, now);
      assert KeyNext(p, t, now) == Reading(p, s, w.(count := w.count + 1), now, k);
    }
  }

  /** A full new window, all at one reading. */
  lemma Fill(p: Setup, s: Stage, n: nat, until: int, now: int)
    requires Possible(p, s) && Crowded(s.others, n, until) && now <= until && s.peak <= now + p.late
    requires s.entry.None? || Stale(s.entry.value, now)
    ensures Possible(p, Reading(p, s, Window(Cap(p.cfg), now + p.cfg.window), now, Cap(p.cfg)))
  {
    hide Possible, Crowded, Cap;
    var t := KeyNext(p, s, now);
    KeyThen(p, s, n, until, now);
    More(p, t, n, until, now, Cap(p.cfg) - 1);
    assert Reading(p, t, Window(Cap(p.cfg), now + p.cfg.window), now, Cap(p.cfg) - 1) ==
           Reading(p, s, Window(Cap(p.cfg), now + p.cfg.window), now, Cap(p.cfg));
  }

  lemma CrowdGrows(others: Hits, n: nat, until: int, reset: int)
    requires Crowded(others, n, until) && reset >= until
    ensures Crowded(others[Other(n) := Window(1, reset)], n + 1, until)
  {
    OthersDiffer(n, n);
    forall i: nat | i > n
      ensures Other(i) != Other(n)
    {
      OthersDiffer(i, n);
    }
  }

  lemma SweepTakesKey(others: Hits, n: nat, until: int, w: Window, now: int)
    requires Crowded(others, n, until) && now <= until && Stale(w, now)
    ensures Evicted(others[KEY := w], now) == others && |others[KEY := w]| == n + 1
  {
  }

  lemma OtherRenews(s: Stage, n: nat, until: int, now: int, w: Window)
    requires Crowded(s.others, n, until) && s.entry.Some?
    ensures Renews(s.Held(), Other(n), now)
    ensures s.Held()[Other(n) := w] == s.others[Other(n) := w][KEY := s.entry.value]
  {
    OthersDiffer(n, n);
  }

  /** Another key's first request: it sweeps the key's stale entry away as soon as there are keys enough. */
  lemma OtherAfter(cfg: Config, s: Stage, n: nat, until: int, now: int)
    requires Crowded(s.others, n, until) && now <= until <= now + cfg.window
    requires s.entry.Some? && Stale(s.entry.value, now)
    ensures var others := s.others[Other(n) := Window(1, now + cfg.window)];
            && Crowded(others, n + 1, until)
            && After(cfg, s.Held(), Other(n), now, true) ==
               if n + 2 > EVICT_ABOVE then others else others[KEY := s.entry.value]
  {
    hide Crowded, Renews, Stale, Evicted, Other;
    CrowdGrows(s.others, n, until, now + cfg.window);
    var w := Window(1, now + cfg.window);
    OtherRenews(s, n, until, now, w);
    SweepTakesKey(s.others[Other(n) := w], n + 1, until, s.entry.value, now);
  }

  lemma OtherThen(p: Setup, s: Stage, n: nat, until: int, now: int) returns (t: Stage)
    requires p.sweep && Possible(p, s) && Crowded(s.others, n, until)
    requires now <= until <= now + p.cfg.window && s.peak <= now + p.late
    requires s.entry.Some? && Stale(s.entry.value, now)
    ensures Possible(p, t) && Crowded(t.others, n + 1, until)
    ensures t.entry == if n + 2 > EVICT_ABOVE then None else s.entry
    ensures t.peak == Later(s.peak, now) && t.count == s.count
  {
    hide Possible, Crowded, After, Allowed, Stale, Later;
    OtherAfter(p.cfg, s, n, until, now);
    OthersDiffer(n, n);
    t := Stage(s.others[Other(n) := Window(1, now + p.cfg.window)],
               if n + 2 > EVICT_ABOVE then None else s.entry, Later(s.peak, now), s.count);
    Then(p, s, Request(Other(n), now), t);
  }

  /** So many other keys that one of them sweeps the key's stale entry away. */
  lemma {:induction false} Gather(p: Setup, s: Stage, n: nat, now: int) returns (t: Stage)
    requires p.sweep && Possible(p, s) && Crowded(s.others, n, now + p.cfg.window) && n < EVICT_ABOVE
    requires s.peak <= now && s.entry.Some? && Stale(s.entry.value, now)
    ensures Possible(p, t) && Crowded(t.others, EVICT_ABOVE, now + p.cfg.window)
    ensures t.entry == None && t.peak == now && t.count == s.count
    decreases EVICT_ABOVE - n
  {
    hide Possible, Crowded, Stale;
    t := OtherThen(p, s, n, now + p.cfg.window, now);
    if n + 1 < EVICT_ABOVE {
      t := Gather(p, t, n + 1, now);
    }
  }

  // ---------------------------------------------------------------------------------------------
  // The runs that break the bounds.

  lemma NoneCrowd(until: int)
    ensures Crowded(map[], 0, until)
  {
  }

  /** A window that opens as early as it can and takes the rest of its requests where the interval starts. */
  lemma FirstWindow(p: Setup)
    ensures Possible(p, Stage(map[], Some(Window(Cap(p.cfg), p.from)), p.from,
                              if p.cfg.window == 0 then Cap(p.cfg) else Cap(p.cfg) - 1))
  {
    hide Possible, Crowded, Cap;
    var s, now := Start(p), p.from - p.cfg.window;
    StartPossible(p);
    NoneCrowd(p.from);
    KeyThen(p, s, 0, p.from, now);
    More(p, KeyNext(p, s, now), 0, p.from, p.from, Cap(p.cfg) - 1);
  }

  /** A second window one later, all in the interval if that has room for it. */
  lemma SecondWindow(p: Setup)
    requires p.late >= 1 || p.cfg.window >= 1
    ensures Possible(p, Stage(map[], Some(Window(Cap(p.cfg), p.from + 1 + p.cfg.window)), p.from + 1,
                              2 * Cap(p.cfg) - 1))
  {
    hide Possible, Crowded, Cap;
    var s := Stage(map[], Some(Window(Cap(p.cfg), p.from)), p.from,
                   if p.cfg.window == 0 then Cap(p.cfg) else Cap(p.cfg) - 1);
    FirstWindow(p);
    NoneCrowd(p.from + 1);
    KeyThen(p, s, 0, p.from + 1, p.from + 1);
    More(p, KeyNext(p, s, p.from + 1), 0, p.from + 1, if p.cfg.window == 0 then p.from else p.from + 1, Cap(p.cfg) - 1);
  }

  /** A third one that opens behind the interval and that readings two late fall into. */
  lemma ThirdWindow(p: Setup)
    requires p.late >= 2
    ensures !Keeps(p.cfg, p.late, 3 * Cap(p.cfg) - 3, p.sweep)
  {
    hide Possible, Crowded, Cap, Keeps;
    var end := p.from + p.cfg.window;
    var s := Stage(map[], Some(Window(Cap(p.cfg), end + 1)), p.from + 1, 2 * Cap(p.cfg) - 1);
    SecondWindow(p);
    NoneCrowd(end + 2);
    KeyThen(p, s, 0, end + 2, end + 2);
    var t := KeyNext(p, s, end + 2);
    More(p, t, 0, end + 2, end, Cap(p.cfg) - 1);
    Breaks(p, Reading(p, t, Window(Cap(p.cfg), end + 2 + p.cfg.window), end, Cap(p.cfg) - 1), 3 * Cap(p.cfg) - 3);
  }

  /** With the sweep, readings one late: the key's entry is swept away as soon as it is stale, twice. */
  lemma SweptWindows(p: Setup)
    requires p.sweep && p.late >= 1
    ensures !Keeps(p.cfg, p.late, 3 * Cap(p.cfg) - 2, true)
  {
    hide Possible, Crowded, Cap, Keeps;
    var cap, end := Cap(p.cfg), p.from + p.cfg.window;
    var s := Stage(map[], Some(Window(cap, p.from)), p.from, if p.cfg.window == 0 then cap else cap - 1);
    FirstWindow(p);
    NoneCrowd(end + 1);
    s := Gather(p, s, 0, p.from + 1);
    Fill(p, s, EVICT_ABOVE, end + 1, p.from);
    s := Reading(p, s, Window(cap, end), p.from, cap);
    s := OtherThen(p, s, EVICT_ABOVE, end + 1, end + 1);
    Fill(p, s, EVICT_ABOVE + 1, end + 1, end);
    Breaks(p, Reading(p, s, Window(cap, end + p.cfg.window), end, cap), 3 * cap - 2);
  }

  /** With the sweep, readings that can fall behind a whole window: nothing bounds the windows. */
  lemma {:induction false} ManyWindows(p: Setup, k: nat) returns (s: Stage)
    requires p.sweep && p.late > p.cfg.window
    ensures var end := p.from + p.cfg.window;
            && Possible(p, s) && Crowded(s.others, EVICT_ABOVE + k, end + 1 + p.cfg.window)
            && s.entry == None && s.peak == end + 1 && s.count == k + 1
  {
    hide Possible, Crowded;
    var end := p.from + p.cfg.window;
    if k == 0 {
      StartPossible(p);
      NoneCrowd(end + 1 + p.cfg.window);
      KeyThen(p, Start(p), 0, end + 1 + p.cfg.window, p.from);
      s := Gather(p, KeyNext(p, Start(p), p.from), 0, end + 1);
    } else {
      s := ManyWindows(p, k - 1);
      var t := KeyNext(p, s, p.from);
      KeyThen(p, s, EVICT_ABOVE + k - 1, end + 1 + p.cfg.window, p.from);
      s := OtherThen(p, t, EVICT_ABOVE + k - 1, end + 1 + p.cfg.window, end + 1);
    }
  }

  // ---------------------------------------------------------------------------------------------
  // When the bounds hold.

  lemma TwoWindowsKept(cfg: Config, d: nat, b: nat, sweep: bool)
    requires (if sweep then d == 0 else d <= 1) && b >= 2 * Cap(cfg) - 1
    ensures Keeps(cfg, d, b, sweep)
  {
    hide Late, Count;
    forall rs, key, from | Late(rs, d)
      ensures Count(cfg, rs, key, from, sweep) <= b
    {
      TwoWindowBound(cfg, rs, key, from, d, sweep);
    }
  }

  /** With readings in order, 2 * limit - 1 is the best bound there is. */
  lemma BestBound(cfg: Config, b: nat, sweep: bool)
    requires cfg.window >= 1
    ensures Keeps(cfg, 0, b, sweep) <==> b >= 2 * Cap(cfg) - 1
  {
    hide Keeps, Cap, Possible;
    if b >= 2 * Cap(cfg) - 1 {
      TwoWindowsKept(cfg, 0, b, sweep);
    } else {
      var p := Setup(cfg, 0, 0, sweep);
      SecondWindow(p);
      Breaks(p, Stage(map[], Some(Window(Cap(cfg), 1 + cfg.window)), 1, 2 * Cap(cfg) - 1), b);
    }
  }

  lemma KeepsMore(cfg: Config, d: nat, b: nat, c: nat, sweep: bool)
    requires Keeps(cfg, d, b, sweep) && b <= c
    ensures Keeps(cfg, d, c, sweep)
  {
    hide Late, Count;
  }

  /** The limiter as it is keeps the bound exactly when no reading is late. */
  lemma OrderDecides(cfg: Config, d: nat, b: nat)
    requires 2 * Cap(cfg) - 1 <= b <= 3 * Cap(cfg) - 2
    ensures Keeps(cfg, d, b, true) <==> d == 0
  {
    hide Keeps, Cap;
    if d == 0 {
      TwoWindowsKept(cfg, d, b, true);
    } else {
      SweptWindows(Setup(cfg, d, 0, true));
      if Keeps(cfg, d, b, true) {
        KeepsMore(cfg, d, b, 3 * Cap(cfg) - 2, true);
      }
    }
  }

  /** Without eviction, exactly when no reading is more than 1 late. */
  lemma OneLateIsHarmless(cfg: Config, d: nat, b: nat)
    requires 2 * Cap(cfg) - 1 <= b <= 3 * Cap(cfg) - 3
    ensures Keeps(cfg, d, b, false) <==> d <= 1
  {
    hide Keeps, Cap;
    if d <= 1 {
      TwoWindowsKept(cfg, d, b, false);
    } else {
      ThirdWindow(Setup(cfg, d, 0, false));
      if Keeps(cfg, d, b, false) {
        KeepsMore(cfg, d, b, 3 * Cap(cfg) - 3, false);
      }
    }
  }

  /** Without eviction and at limit 1, always. */
  lemma SinglesKept(cfg: Config, d: nat)
    requires Cap(cfg) == 1
    ensures Keeps(cfg, d, 1, false)
  {
    hide Late, Count, Cap;
    forall rs, key, from | Late(rs, d)
      ensures Count(cfg, rs, key, from, false) <= 1
    {
      SingleBound(cfg, rs, key, from, d);
    }
  }

  /** Some bound holds of the limiter as it is exactly when no reading is more than one window length late. */
  lemma BoundedExactly(cfg: Config, d: nat)
    ensures (exists b: nat :: Keeps(cfg, d, b, true)) <==> d <= cfg.window
  {
    if d <= cfg.window {
      SkewKept(cfg, d);
    } else {
      hide Keeps, Possible, Crowded;
      forall b: nat
        ensures !Keeps(cfg, d, b, true)
      {
        var p := Setup(cfg, d, 0, true);
        var s := ManyWindows(p, b);
        Breaks(p, s, b);
      }
    }
  }

  lemma SkewKept(cfg: Config, d: nat)
    requires d <= cfg.window
    ensures exists b: nat :: Keeps(cfg, d, b, true)
  {
    hide Late, Count, Cap, Windows;
    var b := Cap(cfg) * Windows(cfg, d, true);
    forall rs, key, from | Late(rs, d)
      ensures Count(cfg, rs, key, from, true) <= b
    {
      SkewedRateBound(cfg, rs, key, from, d, true);
    }
    assert Keeps(cfg, d, b, true);
  }

  // ---------------------------------------------------------------------------------------------
  // When the sweep is invisible.

  /** Every decision of the run is the one a limiter without eviction makes. */
  ghost predicate SameDecisions(cfg: Config, rs: seq<Request>) {
    forall i | 0 <= i < |rs| :: Admitted(cfg, rs, i, true) == Admitted(cfg, rs, i, false)
  }

  lemma {:induction false} CountsAlike(cfg: Config, rs: seq<Request>, key: string, from: int)
    requires SameDecisions(cfg, rs)
    ensures Count(cfg, rs, key, from, true) == Count(cfg, rs, key, from, false)
  {
    if rs == [] {
    } else {
      var n := |rs| - 1;
      forall i | 0 <= i < n
        ensures Admitted(cfg, rs[..n], i, true) == Admitted(cfg, rs[..n], i, false)
      {
        assert rs[..n][..i] == rs[..i] && Admitted(cfg, rs, i, true) == Admitted(cfg, rs, i, false);
      }
      CountsAlike(cfg, rs[..n], key, from);
    }
  }

  /** The sweep changes no decision of any run at most d late exactly when d is 0. */
  lemma EvictionInvisibleExactly(cfg: Config, d: nat)
    ensures (forall rs | Late(rs, d) :: SameDecisions(cfg, rs)) <==> d == 0
  {
    if d == 0 {
      forall rs | Late(rs, d)
        ensures SameDecisions(cfg, rs)
      {
        InOrderIsLate(rs);
        forall i | 0 <= i < |rs|
          ensures Admitted(cfg, rs, i, true) == Admitted(cfg, rs, i, false)
        {
          EvictionInvisible(cfg, rs, i);
        }
      }
    } else {
      hide Late, Count, SameDecisions;
      SweptWindows(Setup(cfg, 1, 0, true));
      var rs, key, from :| Late(rs, 1) && Count(cfg, rs, key, from, true) > 3 * Cap(cfg) - 2;
      TwoWindowBound(cfg, rs, key, from, 1, false);
      if SameDecisions(cfg, rs) {
        CountsAlike(cfg, rs, key, from);
      }
      LateAlso(rs, 1, d);
    }
  }

  lemma LateAlso(rs: seq<Request>, c: nat, d: nat)
    requires Late(rs, c) && c <= d
    ensures Late(rs, d)
  {
  }
}
