/**
 The rate limiter when clock readings reach it out of order (api/middleware_ratelimit.go).  The
 clock is read before the lock is taken, so a request can come after one that read a later time.
 */
module RateSkew {
  import opened RateLimit

  /** No reading is more than d behind an earlier request's. */
  ghost predicate Late(rs: seq<Request>, d: nat) {
    forall i, j | 0 <= i <= j < |rs| :: rs[i].now <= rs[j].now + d
  }

  /** The latest reading. */
  function Peak(rs: seq<Request>): (p: int)
    requires rs != []
    ensures forall i | 0 <= i < |rs| :: rs[i].now <= p
    ensures exists i :: 0 <= i < |rs| && rs[i].now == p
  {
    var n := |rs| - 1;
    if n == 0 || Peak(rs[..n]) < rs[n].now then
      assert forall i | 0 <= i < n :: rs[i] == rs[..n][i];
      rs[n].now
    else
      assert forall i | 0 <= i < n :: rs[i] == rs[..n][i];
      Peak(rs[..n])
  }

  lemma LatePrefix(rs: seq<Request>, d: nat)
    requires Late(rs, d) && |rs| > 1
    ensures var n := |rs| - 1; Late(rs[..n], d) && Peak(rs[..n]) <= rs[n].now + d
  {
    var n := |rs| - 1;
    assert forall i | 0 <= i < n :: rs[..n][i] == rs[i];
    var i :| 0 <= i < n && rs[..n][i].now == Peak(rs[..n]);
    hide Peak;
  }

  /** A window of a key: its first reading, its admissions, and those of them in an interval. */
  datatype Span = Span(start: int, total: nat, inside: nat)

  function Inside(cfg: Config, from: int, now: int): nat {
    if from <= now <= from + cfg.window then 1 else 0
  }

  /** The windows after one more request of the key. */
  function Extended(cfg: Config, hits: Hits, ws: seq<Span>, key: string, now: int, from: int): seq<Span> {
    if Renews(hits, key, now) then ws + [Span(now, 1, Inside(cfg, from, now))]
    else if hits[key].count >= cfg.limit || ws == [] then ws
    else
      var last := ws[|ws| - 1];
      ws[..|ws| - 1] + [Span(last.start, last.total + 1, last.inside + Inside(cfg, from, now))]
  }

  function Spans(cfg: Config, rs: seq<Request>, key: string, from: int, sweep: bool): seq<Span> {
    if rs == [] then []
    else
      var n := |rs| - 1;
      var ws := Spans(cfg, rs[..n], key, from, sweep);
      if rs[n].key != key then ws else Extended(cfg, Run(cfg, rs[..n], sweep), ws, key, rs[n].now, from)
  }

  function Sum(ws: seq<Span>): nat {
    if ws == [] then 0 else Sum(ws[..|ws| - 1]) + ws[|ws| - 1].inside
  }

  lemma SumSnoc(ws: seq<Span>, w: Span)
    ensures Sum(ws + [w]) == Sum(ws) + w.inside
  {
    assert (ws + [w])[..|ws|] == ws;
  }

  /** How far apart two windows of a key begin at least. */
  function Gap(cfg: Config, d: nat, sweep: bool): int {
    if sweep then cfg.window + 1 - d else cfg.window + 1
  }

  /** A window keeps its limit, has admissions in the interval only near it, and its first one where it starts. */
  ghost predicate SpanOk(cfg: Config, w: Span, from: int, d: nat) {
    && 1 <= w.total <= Cap(cfg) && w.inside <= w.total
    && (w.inside > 0 ==> from - cfg.window <= w.start <= from + cfg.window + d)
    && (Inside(cfg, from, w.start) == 0 ==> w.inside < w.total)
  }

  ghost predicate Spaced(ws: seq<Span>, gap: int) {
    forall k | 0 < k < |ws| :: ws[k].start >= ws[k - 1].start + gap
  }

  ghost predicate SpansOk(cfg: Config, ws: seq<Span>, from: int, d: nat, sweep: bool) {
    (forall k | 0 <= k < |ws| :: SpanOk(cfg, ws[k], from, d)) && Spaced(ws, Gap(cfg, d, sweep))
  }

  /** The key's entry is its last window, unless a reading beyond that window has swept it away. */
  ghost predicate EntryIsLast(cfg: Config, hits: Hits, ws: seq<Span>, key: string, peak: int, sweep: bool) {
    && (ws != [] ==> ws[|ws| - 1].start <= peak)
    && (key in hits ==>
          ws != [] && var last := ws[|ws| - 1]; hits[key] == Window(last.total, last.start + cfg.window))
    && (key !in hits && ws != [] ==> sweep && peak > ws[|ws| - 1].start + cfg.window)
  }

  lemma OpenKeepsSpans(cfg: Config, ws: seq<Span>, w: Span, from: int, d: nat, sweep: bool)
    requires SpansOk(cfg, ws, from, d, sweep) && SpanOk(cfg, w, from, d)
    requires ws != [] ==> w.start >= ws[|ws| - 1].start + Gap(cfg, d, sweep)
    ensures SpansOk(cfg, ws + [w], from, d, sweep)
  {
    hide SpanOk, Gap;
  }

  lemma CountKeepsSpans(cfg: Config, ws: seq<Span>, w: Span, from: int, d: nat, sweep: bool)
    requires SpansOk(cfg, ws, from, d, sweep) && SpanOk(cfg, w, from, d)
    requires ws != [] && w.start == ws[|ws| - 1].start
    ensures SpansOk(cfg, ws[..|ws| - 1] + [w], from, d, sweep)
  {
    hide SpanOk, Gap;
  }

  lemma SpanOpens(cfg: Config, now: int, from: int, d: nat)
    ensures SpanOk(cfg, Span(now, 1, Inside(cfg, from, now)), from, d)
  {
  }

  lemma SpanCounts(cfg: Config, w: Span, now: int, from: int, d: nat)
    requires SpanOk(cfg, w, from, d) && w.total < cfg.limit && w.start - d <= now <= w.start + cfg.window
    ensures SpanOk(cfg, Span(w.start, w.total + 1, w.inside + Inside(cfg, from, now)), from, d)
  {
  }

  /** One request of the key, not more than d behind the latest reading so far. */
  lemma ExtendedOk(cfg: Config, hits: Hits, ws: seq<Span>, key: string, now: int, from: int, peak: int, d: nat,
                   sweep: bool)
    requires SpansOk(cfg, ws, from, d, sweep) && EntryIsLast(cfg, hits, ws, key, peak, sweep)
    requires ws != [] ==> peak <= now + d
    ensures SpansOk(cfg, Extended(cfg, hits, ws, key, now, from), from, d, sweep)
    ensures Sum(Extended(cfg, hits, ws, key, now, from)) ==
            Sum(ws) + if Allowed(cfg, hits, key, now) then Inside(cfg, from, now) else 0
  {
    hide SpanOk, Spaced, Inside, Sum;
    if Renews(hits, key, now) {
      var w := Span(now, 1, Inside(cfg, from, now));
      SpanOpens(cfg, now, from, d);
      OpenKeepsSpans(cfg, ws, w, from, d, sweep);
      SumSnoc(ws, w);
    } else if hits[key].count < cfg.limit {
      var last := ws[|ws| - 1];
      var w := Span(last.start, last.total + 1, last.inside + Inside(cfg, from, now));
      SpanCounts(cfg, last, now, from, d);
      CountKeepsSpans(cfg, ws, w, from, d, sweep);
      SumSnoc(ws[..|ws| - 1], w);
      SumSnoc(ws[..|ws| - 1], last);
      assert ws == ws[..|ws| - 1] + [last];
    }
  }

  lemma ExtendedEntry(cfg: Config, hits: Hits, ws: seq<Span>, key: string, now: int, from: int, peak: int, sweep: bool)
    requires EntryIsLast(cfg, hits, ws, key, peak, sweep)
    ensures EntryIsLast(cfg, After(cfg, hits, key, now, sweep), Extended(cfg, hits, ws, key, now, from), key,
                        if peak < now then now else peak, sweep)
  {
  }

  /** A request of another key can at most sweep the entry away. */
  lemma OtherEntry(cfg: Config, hits: Hits, ws: seq<Span>, key: string, other: string, now: int, peak: int, sweep: bool)
    requires EntryIsLast(cfg, hits, ws, key, peak, sweep) && other != key
    ensures EntryIsLast(cfg, After(cfg, hits, other, now, sweep), ws, key, if peak < now then now else peak, sweep)
  {
  }

  ghost predicate RunOk(cfg: Config, rs: seq<Request>, key: string, from: int, d: nat, sweep: bool) {
    var ws := Spans(cfg, rs, key, from, sweep);
    && SpansOk(cfg, ws, from, d, sweep)
    && (rs == [] ==> ws == [])
    && EntryIsLast(cfg, Run(cfg, rs, sweep), ws, key, if rs == [] then 0 else Peak(rs), sweep)
    && Sum(ws) == Count(cfg, rs, key, from, sweep)
  }

  lemma CountStep(cfg: Config, rs: seq<Request>, key: string, from: int, sweep: bool)
    requires rs != []
    ensures var n := |rs| - 1;
            Count(cfg, rs, key, from, sweep) ==
            Count(cfg, rs[..n], key, from, sweep) +
            if rs[n].key == key && Allowed(cfg, Run(cfg, rs[..n], sweep), key, rs[n].now)
            then Inside(cfg, from, rs[n].now) else 0
  {
    hide Run, Allowed;
  }

  lemma PeakStep(rs: seq<Request>)
    requires rs != []
    ensures var n := |rs| - 1;
            Peak(rs) == if n == 0 || Peak(rs[..n]) < rs[n].now then rs[n].now else Peak(rs[..n])
  {
  }

  lemma EntryAnyPeak(cfg: Config, hits: Hits, ws: seq<Span>, key: string, rs: seq<Request>, peak: int, sweep: bool)
    requires EntryIsLast(cfg, hits, ws, key, if rs == [] then 0 else Peak(rs), sweep)
    requires if rs == [] then ws == [] else peak == Peak(rs)
    ensures EntryIsLast(cfg, hits, ws, key, peak, sweep)
  {
    hide Peak;
  }

  lemma {:induction false} RunIsOk(cfg: Config, rs: seq<Request>, key: string, from: int, d: nat, sweep: bool)
    requires Late(rs, d)
    ensures RunOk(cfg, rs, key, from, d, sweep)
  {
    hide Late, Peak, SpansOk, EntryIsLast, Extended, After, Sum, Allowed, Inside;
    if rs == [] {
      NothingIsOk(cfg, key, from, d, sweep);
    } else {
      var n := |rs| - 1;
      if n > 0 {
        LatePrefix(rs, d);
      } else {
        NothingIsLate(rs[..0], d);
      }
      RunIsOk(cfg, rs[..n], key, from, d, sweep);
      var hits, ws := Run(cfg, rs[..n], sweep), Spans(cfg, rs[..n], key, from, sweep);
      var r, peak := rs[n], if n == 0 then rs[n].now else Peak(rs[..n]);
      PeakStep(rs);
      EntryAnyPeak(cfg, hits, ws, key, rs[..n], peak, sweep);
      CountStep(cfg, rs, key, from, sweep);
      if r.key == key {
        ExtendedOk(cfg, hits, ws, key, r.now, from, peak, d, sweep);
        ExtendedEntry(cfg, hits, ws, key, r.now, from, peak, sweep);
      } else {
        OtherEntry(cfg, hits, ws, key, r.key, r.now, peak, sweep);
      }
    }
  }

  lemma NothingIsLate(rs: seq<Request>, d: nat)
    requires rs == []
    ensures Late(rs, d)
  {
  }

  lemma NothingIsOk(cfg: Config, key: string, from: int, d: nat, sweep: bool)
    ensures RunOk(cfg, [], key, from, d, sweep)
  {
  }

  // ---------------------------------------------------------------------------------------------
  // An interval of one window length that can meet only two windows.

  /** The most that windows a window length apart, the last from x on, have admitted in the interval. */
  function Reach(cfg: Config, x: int, from: int): nat {
    if x < from - cfg.window then 0
    else if x < from then Cap(cfg) - 1
    else if x == from then Cap(cfg)
    else 2 * Cap(cfg) - 1
  }

  lemma ReachStep(cfg: Config, sum: nat, x: int, w: Span, from: int, d: nat)
    requires SpanOk(cfg, w, from, d) && d <= 1 && sum <= Reach(cfg, x, from)
    requires sum > 0 ==> w.start > x + cfg.window
    ensures sum + w.inside <= Reach(cfg, w.start, from)
  {
  }

  lemma {:induction false} SpansReach(cfg: Config, ws: seq<Span>, from: int, d: nat)
    requires Spaced(ws, cfg.window + 1) && d <= 1
    requires forall k | 0 <= k < |ws| :: SpanOk(cfg, ws[k], from, d)
    ensures Sum(ws) <= if ws == [] then 0 else Reach(cfg, ws[|ws| - 1].start, from)
  {
    if ws == [] {
    } else {
      var n := |ws| - 1;
      SpansReach(cfg, ws[..n], from, d);
      hide SpanOk, Reach;
      ReachStep(cfg, Sum(ws[..n]), if n == 0 then 0 else ws[n - 1].start, ws[n], from, d);
    }
  }

  /** A window that starts where the interval does fills it, with readings in order. */
  lemma {:induction false} StartFills(cfg: Config, ws: seq<Span>, from: int)
    requires Spaced(ws, cfg.window + 1)
    requires forall k | 0 <= k < |ws| :: SpanOk(cfg, ws[k], from, 0)
    ensures (exists k :: 0 <= k < |ws| && ws[k].start == from) ==> Sum(ws) <= Cap(cfg) && ws[|ws| - 1].start >= from
  {
    if ws == [] {
    } else {
      var n := |ws| - 1;
      StartFills(cfg, ws[..n], from);
      SpansReach(cfg, ws[..n], from, 0);
      if exists k :: 0 <= k < n && ws[k].start == from {
        var k :| 0 <= k < n && ws[k].start == from;
        assert ws[..n][k].start == from;
      }
    }
  }

  /** At limit 1 only windows that start in the interval matter. */
  lemma {:induction false} SinglesReach(cfg: Config, ws: seq<Span>, from: int, d: nat)
    requires Spaced(ws, cfg.window + 1) && Cap(cfg) == 1
    requires forall k | 0 <= k < |ws| :: SpanOk(cfg, ws[k], from, d)
    ensures Sum(ws) <= if ws == [] || ws[|ws| - 1].start < from then 0 else 1
  {
    if ws == [] {
    } else {
      SinglesReach(cfg, ws[..|ws| - 1], from, d);
    }
  }

  // ---------------------------------------------------------------------------------------------
  // How many windows an interval can meet.

  lemma DivStep(a: int, b: int, g: int)
    requires g > 0 && b >= a + g
    ensures b / g >= a / g + 1
  {
    DivMonotone(a + g, b, g);
    assert a + g == g * (a / g + 1) + a % g;
    DivUnique(a + g, g, a / g + 1, a % g);
  }

  lemma DivMonotone(a: int, b: int, g: int)
    requires g > 0 && a <= b
    ensures a / g <= b / g
  {
    assert g * (b / g + 1) == g * (b / g) + g;
    MulCancel(g, a / g, b / g + 1);
  }

  lemma MulCancel(g: int, x: int, y: int)
    requires g > 0 && g * x < g * y
    ensures x < y
  {
    if y <= x {
      MulMonotone(g, y, x);
    }
  }

  lemma MulMonotone(g: int, x: int, y: int)
    requires g > 0 && x <= y
    ensures g * x <= g * y
  {
  }

  lemma DivUnique(v: int, g: int, q: int, r: int)
    requires g > 0 && v == g * q + r && 0 <= r < g
    ensures v / g == q
  {
    assert g * (q + 1) == g * q + g && g * (v / g + 1) == g * (v / g) + g;
    MulCancel(g, v / g, q + 1);
    MulCancel(g, q, v / g + 1);
  }

  /** The most windows that begin from lo on, not after hi, and not after x. */
  function Slots(x: int, lo: int, hi: int, gap: int): nat
    requires gap > 0 && lo <= hi
  {
    if x < lo then 0 else ((if x < hi then x else hi) - lo) / gap + 1
  }

  lemma SlotsGrow(x: int, y: int, lo: int, hi: int, gap: int)
    requires gap > 0 && lo <= hi && y >= x + gap
    ensures Slots(y, lo, hi, gap) >= Slots(x, lo, hi, gap) + if lo <= y <= hi then 1 else 0
    ensures y > hi ==> Slots(y, lo, hi, gap) == (hi - lo) / gap + 1
  {
    if lo <= x {
      var a, b := (if x < hi then x else hi) - lo, (if y < hi then y else hi) - lo;
      if y <= hi {
        DivStep(a, b, gap);
      } else {
        DivMonotone(a, b, gap);
      }
    }
  }

  lemma SlotsAtMost(x: int, lo: int, hi: int, gap: int)
    requires gap > 0 && lo <= hi
    ensures Slots(x, lo, hi, gap) <= (hi - lo) / gap + 1
  {
    if lo <= x {
      DivMonotone((if x < hi then x else hi) - lo, hi - lo, gap);
    } else {
      DivMonotone(0, hi - lo, gap);
    }
  }

  /** Sums of what windows hold at most, one for each slot. */
  ghost predicate Fits(ws: seq<Span>, lo: int, hi: int, gap: int, cap: nat)
    requires gap > 0 && lo <= hi
  {
    Sum(ws) <= cap * if ws == [] then 0 else Slots(ws[|ws| - 1].start, lo, hi, gap)
  }

  ghost predicate Holds(w: Span, lo: int, hi: int, cap: nat) {
    w.inside <= cap && (w.inside > 0 ==> lo <= w.start <= hi)
  }

  lemma FitsSnoc(ws: seq<Span>, w: Span, lo: int, hi: int, gap: int, cap: nat)
    requires gap > 0 && lo <= hi && Fits(ws, lo, hi, gap, cap) && Holds(w, lo, hi, cap)
    requires ws != [] ==> w.start >= ws[|ws| - 1].start + gap
    ensures Fits(ws + [w], lo, hi, gap, cap)
  {
    SumSnoc(ws, w);
    var before := if ws == [] then 0 else Slots(ws[|ws| - 1].start, lo, hi, gap);
    if ws != [] {
      SlotsGrow(ws[|ws| - 1].start, w.start, lo, hi, gap);
    } else {
      FirstSlot(w.start, lo, hi, gap);
    }
    var after := Slots(w.start, lo, hi, gap);
    hide Slots, Sum;
    assert after >= before + if lo <= w.start <= hi then 1 else 0;
    if w.inside > 0 {
      NatMul(cap, before + 1, after);
    } else {
      NatMul(cap, before, after);
    }
  }

  lemma FirstSlot(x: int, lo: int, hi: int, gap: int)
    requires gap > 0 && lo <= hi
    ensures lo <= x <= hi ==> Slots(x, lo, hi, gap) >= 1
  {
    if lo <= x <= hi {
      DivMonotone(0, x - lo, gap);
    }
  }

  lemma NatMul(cap: nat, x: nat, y: nat)
    requires x <= y
    ensures cap * x <= cap * y && cap * (x + 1) == cap * x + cap && (x > 0 ==> cap * (x - 1) + cap == cap * x)
  {
  }

  lemma {:induction false} AllFit(ws: seq<Span>, lo: int, hi: int, gap: int, cap: nat)
    requires gap > 0 && lo <= hi && Spaced(ws, gap)
    requires forall k | 0 <= k < |ws| :: Holds(ws[k], lo, hi, cap)
    ensures Fits(ws, lo, hi, gap, cap)
  {
    if ws == [] {
    } else {
      hide Fits, Holds;
      var n := |ws| - 1;
      assert ws == ws[..n] + [ws[n]];
      AllFit(ws[..n], lo, hi, gap, cap);
      FitsSnoc(ws[..n], ws[n], lo, hi, gap, cap);
    }
  }

  /** The windows that can have admissions in an interval of one window length. */
  function Windows(cfg: Config, d: nat, sweep: bool): nat
    requires Gap(cfg, d, sweep) > 0
  {
    DivMonotone(0, 2 * cfg.window + d, Gap(cfg, d, sweep));
    (2 * cfg.window + d) / Gap(cfg, d, sweep) + 1
  }

  /**
   Rate bound with readings at most d late: any closed interval of one window length admits at most
   `limit` for each window it can meet.  Two windows of a key are a window length apart whatever d
   is, unless a sweep drops an entry that a late reading still falls into; then they are d closer.
   */
  lemma SkewedRateBound(cfg: Config, rs: seq<Request>, key: string, from: int, d: nat, sweep: bool)
    requires Late(rs, d) && (sweep ==> d <= cfg.window)
    ensures Gap(cfg, d, sweep) > 0
    ensures Count(cfg, rs, key, from, sweep) <= Cap(cfg) * Windows(cfg, d, sweep)
  {
    var lo, hi, gap := from - cfg.window, from + cfg.window + d, Gap(cfg, d, sweep);
    var ws := Spans(cfg, rs, key, from, sweep);
    hide Late, Count, Spans, Run, EntryIsLast, Sum, SpansOk, Cap;
    RunIsOk(cfg, rs, key, from, d, sweep);
    SpansHold(cfg, ws, from, d, sweep);
    hide RunOk, Holds, Spaced;
    AllFit(ws, lo, hi, gap, Cap(cfg));
    if ws == [] {
      NatMul(Cap(cfg), 0, Windows(cfg, d, sweep));
    } else {
      var slots := Slots(ws[|ws| - 1].start, lo, hi, gap);
      SlotsAtMost(ws[|ws| - 1].start, lo, hi, gap);
      hide Slots;
      NatMul(Cap(cfg), slots, Windows(cfg, d, sweep));
    }
  }

  lemma SpansHold(cfg: Config, ws: seq<Span>, from: int, d: nat, sweep: bool)
    requires SpansOk(cfg, ws, from, d, sweep)
    ensures Spaced(ws, Gap(cfg, d, sweep))
    ensures forall k | 0 <= k < |ws| :: Holds(ws[k], from - cfg.window, from + cfg.window + d, Cap(cfg))
  {
    hide Spaced, Gap;
    assert forall k | 0 <= k < |ws| :: SpanOk(cfg, ws[k], from, d);
  }

  // ---------------------------------------------------------------------------------------------
  // The bounds that hold.

  lemma InOrderIsLate(rs: seq<Request>)
    ensures InOrder(rs) <==> Late(rs, 0)
  {
  }

  /** Readings in order, or at most 1 late without the sweep: two windows, and not all of the first. */
  lemma TwoWindowBound(cfg: Config, rs: seq<Request>, key: string, from: int, d: nat, sweep: bool)
    requires Late(rs, d) && (if sweep then d == 0 else d <= 1)
    ensures Count(cfg, rs, key, from, sweep) <= 2 * Cap(cfg) - 1
  {
    hide Late, Count, Spans, Run, EntryIsLast, Sum, Spaced, SpanOk;
    RunIsOk(cfg, rs, key, from, d, sweep);
    SpansReach(cfg, Spans(cfg, rs, key, from, sweep), from, d);
  }

  lemma ExtendedStarts(cfg: Config, hits: Hits, ws: seq<Span>, key: string, now: int, from: int, k: nat)
    requires k < |ws|
    ensures var es := Extended(cfg, hits, ws, key, now, from); k < |es| && es[k].start == ws[k].start
  {
  }

  lemma {:induction false} OpenerStarts(cfg: Config, rs: seq<Request>, key: string, o: int, from: int, sweep: bool)
      returns (k: nat)
    requires Opens(cfg, rs, key, o, sweep)
    ensures var ws := Spans(cfg, rs, key, from, sweep); k < |ws| && ws[k].start == rs[o].now
    decreases |rs|
  {
    var n := |rs| - 1;
    var hits, ws := Run(cfg, rs[..n], sweep), Spans(cfg, rs[..n], key, from, sweep);
    if o == n {
      k := |ws|;
      hide Run;
    } else {
      OpensEarlier(cfg, rs, key, o, sweep);
      k := OpenerStarts(cfg, rs[..n], key, o, from, sweep);
      ExtendedStarts(cfg, hits, ws, key, rs[n].now, from, k);
      hide Run, Opens, Extended;
    }
  }

  /**
   Rate bound.  With readings in order, any closed interval of one window length admits at most
   2 * limit - 1 requests of a key, and at most `limit` if the key opens a window where it starts.
   */
  lemma RateBound(cfg: Config, rs: seq<Request>, key: string, from: int, sweep: bool)
    requires InOrder(rs)
    ensures Count(cfg, rs, key, from, sweep) <= 2 * Cap(cfg) - 1
    ensures (exists o :: Opens(cfg, rs, key, o, sweep) && rs[o].now == from) ==>
              Count(cfg, rs, key, from, sweep) <= Cap(cfg)
  {
    InOrderIsLate(rs);
    hide Late, InOrder, Count, Spans, Run, EntryIsLast, Sum, Spaced, SpanOk, Renews;
    TwoWindowBound(cfg, rs, key, from, 0, sweep);
    if exists o :: Opens(cfg, rs, key, o, sweep) && rs[o].now == from {
      var o :| Opens(cfg, rs, key, o, sweep) && rs[o].now == from;
      var k := OpenerStarts(cfg, rs, key, o, from, sweep);
      RunIsOk(cfg, rs, key, from, 0, sweep);
      StartFills(cfg, Spans(cfg, rs, key, from, sweep), from);
    }
  }

  /** At limit 1 and without the sweep no lateness matters. */
  lemma SingleBound(cfg: Config, rs: seq<Request>, key: string, from: int, d: nat)
    requires Late(rs, d) && Cap(cfg) == 1
    ensures Count(cfg, rs, key, from, false) <= 1
  {
    hide Late, Count, Spans, Run, EntryIsLast, Sum, Spaced, SpanOk;
    RunIsOk(cfg, rs, key, from, d, false);
    SinglesReach(cfg, Spans(cfg, rs, key, from, false), from, d);
  }
}
