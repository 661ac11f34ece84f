/** Workspace slugs (slugify and uniqueSlug in internal/store/store.go). */
module Slug {
  import opened Prelude
  import opened Text

  predicate Alnum(c: char) {
    'a' <= c <= 'z' || Digit(c)
  }

  /** What slugify needs of unicode.ToLower. */
  ghost predicate KeepsSlugChars(lower: char -> char) {
    forall c | Alnum(c) || c == '-' :: lower(c) == c
  }

  function LowerAll(s: string, lower: char -> char): (r: string)
    ensures |r| == |s| && forall k | 0 <= k < |s| :: r[k] == lower(s[k])
  {
    seq(|s|, k requires 0 <= k < |s| => lower(s[k]))
  }

  /** The length of the leading run of slug characters. */
  function Run(t: string): (n: nat)
    ensures n <= |t| && (forall k | 0 <= k < n :: Alnum(t[k])) && (n < |t| ==> !Alnum(t[n]))
  {
    Leading(t, Alnum)
  }

  /** The maximal runs of slug characters. */
  function Groups(t: string): seq<string>
    decreases |t|
  {
    if t == "" then []
    else if Run(t) == 0 then Groups(t[1..])
    else [t[..Run(t)]] + Groups(t[Run(t)..])
  }

  function Dashed(groups: seq<string>): string {
    if groups == [] then ""
    else if |groups| == 1 then groups[0]
    else groups[0] + "-" + Dashed(groups[1..])
  }

  /** The slug of a name: its runs of slug characters joined by dashes. */
  function SlugOf(name: string, lower: char -> char): string {
    var groups := Groups(LowerAll(TrimSpace(name), lower));
    if groups == [] then "workspace" else Dashed(groups)
  }

  /** Dash-separated non-empty groups of [a-z0-9]. */
  ghost predicate SlugForm(s: string) {
    && s != "" && s[0] != '-' && s[|s| - 1] != '-'
    && (forall k | 0 <= k < |s| :: 'a' <= s[k] <= 'z' || '0' <= s[k] <= '9' || s[k] == '-')
    && (forall k | 0 <= k < |s| - 1 :: s[k] != '-' || s[k + 1] != '-')
  }

  // ---------------------------------------------------------------------------------------------

  lemma RunIs(t: string, n: nat)
    requires n <= |t| && (forall k | 0 <= k < n :: Alnum(t[k])) && (n < |t| ==> !Alnum(t[n]))
    ensures Run(t) == n
  {
  }

  lemma GroupsUnfold(t: string, n: nat)
    requires t != "" && n == Run(t)
    ensures Groups(t) == if n == 0 then Groups(t[1..]) else [t[..n]] + Groups(t[n..])
    ensures Groups("") == []
  {
  }

  lemma RunSnoc(t: string, c: char)
    ensures Run(t + [c]) == if Run(t) == |t| && Alnum(c) then |t| + 1 else Run(t)
  {
    var n := if Run(t) == |t| && Alnum(c) then |t| + 1 else Run(t);
    assert forall k | 0 <= k < n :: (t + [c])[k] == if k < |t| then t[k] else c;
    RunIs(t + [c], n);
  }

  ghost function Snoc(groups: seq<string>, extend: bool, c: char): seq<string> {
    if !Alnum(c) then groups
    else if extend && groups != [] then groups[..|groups| - 1] + [groups[|groups| - 1] + [c]]
    else groups + [[c]]
  }

  lemma WholeRun(t: string)
    requires t != "" && Run(t) == |t|
    ensures Groups(t) == [t]
  {
    assert t[..|t|] == t && t[|t|..] == "";
  }

  lemma WholeRunSnoc(t: string, c: char)
    requires Run(t) == |t|
    ensures Groups(t + [c]) == Snoc(Groups(t), t != "", c)
  {
    hide Groups, Run, Snoc;
    var u := t + [c];
    RunSnoc(t, c);
    GroupsOfNothing();
    SnocOne(t, c);
    if t != "" {
      WholeRun(t);
    }
    if Alnum(c) {
      WholeRun(u);
      assert t == "" ==> u == [c];
    } else {
      GroupsUnfold(u, |t|);
      assert u[..|t|] == t && u[|t|..] == [c] && [c][1..] == "" && (t == "" ==> u[1..] == "");
      RunIs([c], 0);
      GroupsUnfold([c], 0);
      assert t != "" ==> Groups(u) == [t] + Groups([c]) == [t];
    }
  }

  lemma GroupsOfNothing()
    ensures Groups("") == []
  {
  }

  lemma SnocOne(t: string, c: char)
    ensures Snoc([], false, c) == if Alnum(c) then [[c]] else []
    ensures Snoc([t], true, c) == [if Alnum(c) then t + [c] else t]
  {
  }

  lemma SnocCons(x: string, rest: seq<string>, extend: bool, c: char)
    requires extend ==> rest != []
    ensures Snoc([x] + rest, extend, c) == [x] + Snoc(rest, extend, c)
  {
  }

  /** Groups one character at a time from the left, as the loop meets them. */
  lemma {:induction false} GroupsSnoc(t: string, c: char)
    ensures Groups(t + [c]) == Snoc(Groups(t), t != "" && Alnum(t[|t| - 1]), c)
    ensures t != "" && Alnum(t[|t| - 1]) ==> Groups(t) != []
    decreases |t|
  {
    hide Groups, Run, Snoc;
    var u, n := t + [c], Run(t);
    if n == |t| {
      WholeRunSnoc(t, c);
      if t != "" {
        WholeRun(t);
      }
    } else {
      RunSnoc(t, c);
      GroupsUnfold(u, n);
      GroupsUnfold(t, n);
      var m := if n == 0 then 1 else n;
      GroupsSnoc(t[m..], c);
      assert u[..m] == t[..m] && u[m..] == t[m..] + [c];
      assert m < |t| ==> t[m..][|t[m..]| - 1] == t[|t| - 1];
      var extend := Alnum(t[|t| - 1]);
      assert extend ==> m < |t|;
      assert extend == (t[m..] != "" && Alnum(t[m..][|t[m..]| - 1]));
      SnocCons(t[..n], Groups(t[m..]), extend, c);
    }
  }

  lemma {:induction false} DashedSnoc(groups: seq<string>, g: string)
    ensures Dashed(groups + [g]) == (if groups == [] then "" else Dashed(groups) + "-") + g
  {
    if groups == [] {
    } else {
      assert (groups + [g])[1..] == groups[1..] + [g];
      DashedSnoc(groups[1..], g);
    }
  }

  lemma {:induction false} GroupsAreAlnum(t: string)
    ensures AlnumGroups(Groups(t))
    decreases |t|
  {
    if t == "" {
    } else {
      GroupsAreAlnum(if Run(t) == 0 then t[1..] else t[Run(t)..]);
    }
  }

  ghost predicate AlnumGroups(groups: seq<string>) {
    forall k | 0 <= k < |groups| :: groups[k] != "" && forall i | 0 <= i < |groups[k]| :: Alnum(groups[k][i])
  }

  /** The loop's buffer: the groups so far, and a dash if the last character was none of theirs. */
  ghost predicate Buffer(t: string, b: string, prevDash: bool) {
    && b == Dashed(Groups(t)) + (if prevDash then "-" else "")
    && (prevDash <==> Groups(t) != [] && !Alnum(t[|t| - 1]))
  }

  method Slugify(name: string, lower: char -> char) returns (slug: string)
    ensures slug == SlugOf(name, lower)
  {
    hide Buffer, Groups, Dashed;
    var s := LowerAll(TrimSpace(name), lower);
    var b, prevDash := "", false;
    EmptyBuffer(s[..0]);
    for i := 0 to |s|
      invariant Buffer(s[..i], b, prevDash)
    {
      assert s[..i + 1] == s[..i] + [s[i]];
      BufferSnoc(s[..i], s[i], b, prevDash);
      if Alnum(s[i]) {
        b := b + [s[i]];
        prevDash := false;
      } else if !prevDash && |b| > 0 {
        b := b + "-";
        prevDash := true;
      }
    }
    assert s[..|s|] == s;
    BufferTrimmed(s, b, prevDash);
    slug := Trim(b, c => c == '-');
    if slug == "" {
      slug := "workspace";
    }
  }

  lemma EmptyBuffer(t: string)
    requires t == ""
    ensures Buffer(t, "", false)
  {
  }

  lemma DashedSnocSnoc(groups: seq<string>, extend: bool, c: char)
    requires extend ==> groups != []
    ensures Dashed(if extend then groups[..|groups| - 1] + [groups[|groups| - 1] + [c]] else groups + [[c]]) ==
            Dashed(groups) + (if extend || groups == [] then "" else "-") + [c]
  {
    hide Dashed;
    DashedNothing();
    if extend {
      var init, g := groups[..|groups| - 1], groups[|groups| - 1];
      assert groups == init + [g];
      DashedSnoc(init, g);
      DashedSnoc(init, g + [c]);
    } else {
      DashedSnoc(groups, [c]);
    }
  }

  lemma DashedNothing()
    ensures Dashed([]) == ""
  {
  }

  lemma BufferSnoc(t: string, c: char, b: string, prevDash: bool)
    requires Buffer(t, b, prevDash)
    ensures Alnum(c) ==> Buffer(t + [c], b + [c], false)
    ensures !Alnum(c) && !prevDash && |b| > 0 ==> Buffer(t + [c], b + "-", true)
    ensures !Alnum(c) && (prevDash || b == "") ==> Buffer(t + [c], b, prevDash)
  {
    var groups := Groups(t);
    hide Groups, Dashed, Alnum;
    var extend := t != "" && Alnum(t[|t| - 1]);
    GroupsSnoc(t, c);
    GroupsAreAlnum(t);
    DashedNonempty(groups);
    DashedNothing();
    GroupsOfNothing();
    hide AlnumGroups;
    assert (t + [c])[|t + [c]| - 1] == c;
    if Alnum(c) {
      DashedSnocSnoc(groups, extend, c);
      var bar := if extend || groups == [] then "" else "-";
      assert b == Dashed(groups) + bar;
    } else {
      assert Groups(t + [c]) == groups;
    }
  }

  lemma DashedNonempty(groups: seq<string>)
    requires AlnumGroups(groups)
    ensures Dashed(groups) == "" <==> groups == []
  {
  }

  lemma {:induction false} DashedIsSlugForm(groups: seq<string>)
    requires groups != [] && AlnumGroups(groups)
    ensures SlugForm(Dashed(groups))
  {
    if |groups| > 1 {
      assert AlnumGroups(groups[1..]);
      DashedIsSlugForm(groups[1..]);
    }
  }

  lemma BufferTrimmed(t: string, b: string, prevDash: bool)
    requires Buffer(t, b, prevDash)
    ensures Trim(b, c => c == '-') == Dashed(Groups(t))
    ensures Dashed(Groups(t)) == "" <==> Groups(t) == []
  {
    GroupsAreAlnum(t);
    DashedNonempty(Groups(t));
    if Groups(t) != [] {
      DashedIsSlugForm(Groups(t));
      TrimOneDash(Dashed(Groups(t)), b);
    }
  }

  lemma TrimOneDash(s: string, b: string)
    requires SlugForm(s) && (b == s || b == s + "-")
    ensures Trim(b, c => c == '-') == s
  {
    var dash := (c: char) => c == '-';
    assert TrimLeft(b, dash) == b;
    if b != s {
      assert b[..|b| - 1] == s;
      assert TrimRight(b, dash) == TrimRight(s, dash);
    }
    assert TrimRight(s, dash) == s;
  }

  // ---------------------------------------------------------------------------------------------

  /** Every slug has the form... */
  lemma SlugHasForm(name: string, lower: char -> char)
    ensures SlugForm(SlugOf(name, lower))
  {
    var groups := Groups(LowerAll(TrimSpace(name), lower));
    if groups != [] {
      GroupsAreAlnum(LowerAll(TrimSpace(name), lower));
      DashedIsSlugForm(groups);
    }
  }

  lemma FormContinues(s: string)
    requires SlugForm(s) && Run(s) < |s|
    ensures Run(s) > 0 && s[Run(s)] == '-' && Run(s) + 1 < |s| && SlugForm(s[Run(s) + 1..])
  {
  }

  lemma GroupsPastDash(s: string)
    requires s != "" && Run(s) < |s| && s[Run(s)] == '-' && Run(s) > 0
    ensures Groups(s) == [s[..Run(s)]] + Groups(s[Run(s) + 1..])
  {
    var n := Run(s);
    assert s[n..][1..] == s[n + 1..];
    RunIs(s[n..], 0);
    hide Groups, Run;
    GroupsUnfold(s, n);
    GroupsUnfold(s[n..], 0);
  }

  lemma DashedCons(g: string, groups: seq<string>)
    requires groups != []
    ensures Dashed([g] + groups) == g + "-" + Dashed(groups)
  {
    assert ([g] + groups)[1..] == groups;
  }

  lemma OneGroup(s: string)
    requires s != "" && Run(s) == |s|
    ensures Groups(s) == [s] && Dashed(Groups(s)) == s
  {
    WholeRun(s);
  }

  lemma {:induction false} FormIsItsGroups(s: string)
    requires SlugForm(s)
    ensures Groups(s) != [] && Dashed(Groups(s)) == s
    decreases |s|
  {
    var n := Run(s);
    assert s != "";
    hide Groups, Run, SlugForm, Dashed, Alnum;
    if n == |s| {
      OneGroup(s);
    } else {
      FormContinues(s);
      var rest := s[n + 1..];
      GroupsPastDash(s);
      FormIsItsGroups(rest);
      DashedCons(s[..n], Groups(rest));
      assert s == s[..n] + "-" + rest;
    }
  }

  /** ...and a text of that form is its own slug, so slugify is idempotent. */
  lemma SlugFixesForm(s: string, lower: char -> char)
    requires KeepsSlugChars(lower) && SlugForm(s)
    ensures SlugOf(s, lower) == s
  {
    TrimNothing(s, Space);
    assert LowerAll(s, lower) == s;
    FormIsItsGroups(s);
  }

  lemma SlugifyIdempotent(name: string, lower: char -> char)
    requires KeepsSlugChars(lower)
    ensures SlugOf(SlugOf(name, lower), lower) == SlugOf(name, lower)
  {
    SlugHasForm(name, lower);
    SlugFixesForm(SlugOf(name, lower), lower);
  }

  // ---------------------------------------------------------------------------------------------
  // What a slug is made of, by a grammar of names.

  /** A run of slug characters, and what separates it from the next one. */
  datatype Piece = Piece(group: string, gap: string)

  ghost predicate Bare(s: string) {
    forall k | 0 <= k < |s| :: !('a' <= s[k] <= 'z') && !('0' <= s[k] <= '9')
  }

  ghost predicate PieceOk(p: Piece) {
    && p.group != "" && Bare(p.gap)
    && forall k | 0 <= k < |p.group| :: 'a' <= p.group[k] <= 'z' || '0' <= p.group[k] <= '9'
  }

  /** Only the last piece can be without a gap. */
  ghost predicate PiecesOk(ps: seq<Piece>) {
    forall i | 0 <= i < |ps| :: PieceOk(ps[i]) && (i < |ps| - 1 ==> ps[i].gap != "")
  }

  function Shown(ps: seq<Piece>): string {
    if ps == [] then "" else ps[0].group + ps[0].gap + Shown(ps[1..])
  }

  function GroupsOf(ps: seq<Piece>): (groups: seq<string>)
    ensures |groups| == |ps|
  {
    if ps == [] then [] else [ps[0].group] + GroupsOf(ps[1..])
  }

  lemma {:induction false} GapFirst(gap: string, t: string)
    requires Bare(gap)
    ensures Groups(gap + t) == Groups(t)
  {
    if gap == "" {
      assert gap + t == t;
    } else {
      var u := gap + t;
      assert u[1..] == gap[1..] + t && u[0] == gap[0];
      RunIs(u, 0);
      GroupsUnfold(u, 0);
      GapFirst(gap[1..], t);
    }
  }

  lemma GroupFirst(g: string, t: string)
    requires g != "" && (forall k | 0 <= k < |g| :: Alnum(g[k])) && (t != "" ==> !Alnum(t[0]))
    ensures Groups(g + t) == [g] + Groups(t)
  {
    var u := g + t;
    assert forall k | 0 <= k < |g| :: u[k] == g[k];
    assert t != "" ==> u[|g|] == t[0];
    RunIs(u, |g|);
    GroupsUnfold(u, |g|);
    assert u[..|g|] == g && u[|g|..] == t;
  }

  lemma {:induction false} GroupsReadPieces(ps: seq<Piece>)
    requires PiecesOk(ps)
    ensures Groups(Shown(ps)) == GroupsOf(ps)
  {
    hide Groups;
    if ps == [] {
      GroupsOfNothing();
    } else {
      var rest := ps[0].gap + Shown(ps[1..]);
      assert Shown(ps) == ps[0].group + rest;
      assert PiecesOk(ps[1..]);
      assert rest != "" ==> ps[0].gap != "" && rest[0] == ps[0].gap[0];
      GroupFirst(ps[0].group, rest);
      GapFirst(ps[0].gap, Shown(ps[1..]));
      GroupsReadPieces(ps[1..]);
    }
  }

  /**
   The slug of a name.  However the trimmed and lowered name is cut into runs of slug characters and
   what is between them, the slug is those runs joined by dashes, or "workspace" if there is none.
   */
  lemma SlugReadsPieces(name: string, lower: char -> char, a: string, t: string, b: string, lead: string,
                        ps: seq<Piece>)
    requires Between(name, a, t, b, Space)
    requires Bare(lead) && PiecesOk(ps) && |lead + Shown(ps)| == |t|
    requires forall k | 0 <= k < |t| :: (lead + Shown(ps))[k] == lower(t[k])
    ensures SlugOf(name, lower) == if ps == [] then "workspace" else Dashed(GroupsOf(ps))
  {
    hide Between, Groups, Dashed;
    TrimsExactly(name, t, Space);
    assert LowerAll(t, lower) == lead + Shown(ps);
    GapFirst(lead, Shown(ps));
    GroupsReadPieces(ps);
    assert ps == [] <==> GroupsOf(ps) == [];
  }

  lemma MoreLead(c: char, lead: string)
    requires !Alnum(c) && Bare(lead)
    ensures Bare([c] + lead)
  {
  }

  lemma LongerPiece(c: char, p: Piece)
    requires Alnum(c) && (PieceOk(p) || (p.group == "" && Bare(p.gap)))
    ensures PieceOk(Piece([c] + p.group, p.gap))
  {
    hide Bare;
  }

  lemma ShownCons(p: Piece, rest: seq<Piece>)
    ensures Shown([p] + rest) == p.group + p.gap + Shown(rest)
  {
    assert ([p] + rest)[1..] == rest;
  }

  lemma PiecesOkCons(p: Piece, rest: seq<Piece>)
    ensures PiecesOk([p] + rest) <==> PieceOk(p) && PiecesOk(rest) && (rest != [] ==> p.gap != "")
  {
    hide PieceOk;
    var ps := [p] + rest;
    assert forall i | 0 <= i < |rest| :: ps[i + 1] == rest[i];
    if PiecesOk(ps) {
      assert PieceOk(ps[0]);
      forall i | 0 <= i < |rest|
        ensures PieceOk(rest[i]) && (i < |rest| - 1 ==> rest[i].gap != "")
      {
        assert PieceOk(ps[i + 1]);
      }
    }
  }

  lemma LongerGroup(c: char, ps: seq<Piece>)
    requires Alnum(c) && PiecesOk(ps) && ps != []
    ensures var longer := [Piece([c] + ps[0].group, ps[0].gap)] + ps[1..];
            PiecesOk(longer) && Shown(longer) == [c] + Shown(ps)
  {
    hide PieceOk, Alnum, PiecesOk, Shown;
    var p := Piece([c] + ps[0].group, ps[0].gap);
    assert ps == [ps[0]] + ps[1..];
    PiecesOkCons(ps[0], ps[1..]);
    LongerPiece(c, ps[0]);
    PiecesOkCons(p, ps[1..]);
    ShownCons(ps[0], ps[1..]);
    ShownCons(p, ps[1..]);
    assert [c] + ps[0].group + ps[0].gap + Shown(ps[1..]) == [c] + (ps[0].group + ps[0].gap + Shown(ps[1..]));
  }

  lemma NewGroup(c: char, lead: string, ps: seq<Piece>)
    requires Alnum(c) && PiecesOk(ps) && Bare(lead) && (ps != [] ==> lead != "")
    ensures var more := [Piece([c], lead)] + ps;
            PiecesOk(more) && Shown(more) == [c] + (lead + Shown(ps))
  {
    hide PieceOk, Alnum, PiecesOk, Shown, Bare;
    LongerPiece(c, Piece("", lead));
    assert [c] + "" == [c];
    PiecesOkCons(Piece([c], lead), ps);
    ShownCons(Piece([c], lead), ps);
    assert [c] + lead + Shown(ps) == [c] + (lead + Shown(ps));
  }

  /** Every text can be cut so. */
  lemma {:induction false} PiecesExist(t: string) returns (lead: string, ps: seq<Piece>)
    ensures Bare(lead) && PiecesOk(ps) && t == lead + Shown(ps)
    decreases |t|
  {
    if t == "" {
      lead, ps := "", [];
    } else {
      hide Bare, PiecesOk, Shown, Alnum;
      NothingIsBare();
      lead, ps := PiecesExist(t[1..]);
      assert t == [t[0]] + t[1..];
      if !Alnum(t[0]) {
        MoreLead(t[0], lead);
        lead := [t[0]] + lead;
      } else if lead == "" && ps != [] {
        LongerGroup(t[0], ps);
        lead, ps := "", [Piece([t[0]] + ps[0].group, ps[0].gap)] + ps[1..];
      } else {
        NewGroup(t[0], lead, ps);
        lead, ps := "", [Piece([t[0]], lead)] + ps;
      }
    }
  }

  lemma NothingIsBare()
    ensures Bare("")
  {
  }

  // ---------------------------------------------------------------------------------------------

  /** The candidates of uniqueSlug in order: base, base-1, base-2, ... */
  function Candidate(base: string, i: nat): string {
    if i == 0 then base else base + "-" + Itoa(i)
  }

  lemma CandidatesDistinct(base: string, i: nat, j: nat)
    requires i != j
    ensures Candidate(base, i) != Candidate(base, j)
  {
    if Candidate(base, i) == Candidate(base, j) {
      var a, b := Candidate(base, i), Candidate(base, j);
      assert i > 0 && j > 0 by {
        assert |Candidate(base, 0)| == |base|;
      }
      assert a[|base| + 1..] == Itoa(i) && b[|base| + 1..] == Itoa(j);
      ItoaInjective(i, j);
    }
  }

  lemma CandidateKeepsForm(base: string, i: nat)
    requires SlugForm(base)
    ensures SlugForm(Candidate(base, i))
  {
  }

  /** Nothing but the first n candidates has been tried. */
  ghost predicate OnlyCandidates(base: string, tried: set<string>, n: nat) {
    forall s <- tried :: exists k :: 0 <= k < n && s == Candidate(base, k)
  }

  lemma NothingTried(base: string)
    ensures OnlyCandidates(base, {}, 0)
  {
  }

  lemma CandidateSteps(base: string, i: nat)
    ensures Candidate(base, 0) == base
    ensures i > 0 ==> Candidate(base, i) == base + "-" + Itoa(i)
  {
    hide Itoa;
  }

  lemma OneMoreTried(base: string, tried: set<string>, n: nat)
    requires OnlyCandidates(base, tried, n)
    ensures OnlyCandidates(base, tried + {Candidate(base, n)}, n + 1)
  {
    hide Candidate;
  }

  lemma CandidateIsNew(base: string, tried: set<string>, n: nat)
    requires OnlyCandidates(base, tried, n)
    ensures Candidate(base, n) !in tried
  {
    if Candidate(base, n) in tried {
      var k :| 0 <= k < n && Candidate(base, n) == Candidate(base, k);
      CandidatesDistinct(base, k, n);
    }
  }

  /**
   uniqueSlug over a finite table of existing slugs, where `fails(i)` is whether the i-th lookup
   fails, which leaves the count at 0.  The loop ends with at most one lookup more than there are
   slugs, at the first candidate that is free or whose lookup fails, so that the slug is taken only
   if the last lookup failed.
   */
  method UniqueSlug(existing: set<string>, base: string, fails: nat -> bool) returns (slug: string, lookups: nat)
    ensures lookups >= 1 && slug == (if lookups == 1 then base else base + "-" + Itoa(lookups - 1))
    ensures slug in existing ==> fails(lookups - 1)
    ensures forall k | 0 <= k < lookups - 1 ::
              (if k == 0 then base else base + "-" + Itoa(k)) in existing && !fails(k)
    ensures lookups <= |existing| + 1
    ensures SlugForm(base) ==> SlugForm(slug)
  {
    hide Candidate, OnlyCandidates, SlugForm, Itoa;
    CandidateSteps(base, 0);
    slug := base;
    var i := 1;
    lookups := 0;
    NothingTried(base);
    ghost var tried: set<string> := {};
    while true
      invariant i == lookups + 1 && slug == Candidate(base, lookups)
      invariant tried <= existing && |tried| == lookups
      invariant forall k | 0 <= k < lookups :: Candidate(base, k) in tried && !fails(k)
      invariant OnlyCandidates(base, tried, lookups)
      decreases |existing| - lookups
    {
      SubsetSize(tried, existing);
      var n := if fails(lookups) || slug !in existing then 0 else 1;
      lookups := lookups + 1;
      if n == 0 {
        if SlugForm(base) {
          CandidateKeepsForm(base, lookups - 1);
        }
        forall k | 0 <= k < lookups
          ensures Candidate(base, k) == if k == 0 then base else base + "-" + Itoa(k)
        {
          CandidateSteps(base, k);
        }
        return;
      }
      CandidateIsNew(base, tried, lookups - 1);
      OneMoreTried(base, tried, lookups - 1);
      CandidateSteps(base, i);
      tried := tried + {slug};
      SubsetSize(tried, existing);
      slug := base + "-" + Itoa(i);
      i := i + 1;
    }
  }
}
