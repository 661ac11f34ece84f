/** Which start commands are accepted (ValidateCommand in internal/security/commands.go). */
module CommandPolicy {
  import opened Prelude
  import opened Text
  import opened Command

  const ALLOWED: set<string> := {"npx", "uvx", "pipx", "python", "python3", "node"}

  const BLOCKED: set<string> := {
    "sudo", "docker", "apt", "apt-get", "apk", "yum", "dnf", "systemctl",
    "mkfs", "mount", "curl", "wget", "sh", "bash", "zsh", "eval"
  }

  const METACHARACTERS := "&|;<>`$()\n\r"

  // ---------------------------------------------------------------------------------------------
  // filepath.Base and strings.IndexAny.

  predicate Slash(c: char) {
    c == '/'
  }

  /** What follows the last slash. */
  function LastElement(path: string): string {
    if path == "" || Slash(path[|path| - 1]) then ""
    else LastElement(path[..|path| - 1]) + [path[|path| - 1]]
  }

  function Base(path: string): string {
    if path == "" then "."
    else
      var name := LastElement(TrimRight(path, Slash));
      if name == "" then "/" else name
  }

  lemma LastElementStep(path: string)
    requires path != "" && !Slash(path[|path| - 1])
    ensures LastElement(path) == LastElement(path[..|path| - 1]) + [path[|path| - 1]]
  {
  }

  lemma {:induction false} LastElementOf(dir: string, name: string)
    requires dir != "" ==> Slash(dir[|dir| - 1])
    requires '/' !in name
    ensures LastElement(dir + name) == name
  {
    if name == "" {
      assert dir + name == dir;
    } else {
      var n := |name| - 1;
      assert (dir + name)[..|dir| + n] == dir + name[..n] && (dir + name)[|dir| + n] == name[n];
      LastElementStep(dir + name);
      hide LastElement, Slash;
      LastElementOf(dir, name[..n]);
      assert name[..n] + [name[n]] == name;
    }
  }

  lemma {:induction false} TrimSlashes(path: string, slashes: string)
    requires path != "" ==> !Slash(path[|path| - 1])
    requires forall k | 0 <= k < |slashes| :: Slash(slashes[k])
    ensures TrimRight(path + slashes, Slash) == path
  {
    if slashes == "" {
      assert path + slashes == path;
    } else {
      var n := |slashes| - 1;
      assert (path + slashes)[..|path| + n] == path + slashes[..n];
      TrimSlashes(path, slashes[..n]);
    }
  }

  /** The name of a program, whatever directory is in front and whatever slashes are behind it. */
  lemma BaseOf(dir: string, name: string, slashes: string)
    requires dir != "" ==> Slash(dir[|dir| - 1])
    requires name != "" && '/' !in name
    requires forall k | 0 <= k < |slashes| :: Slash(slashes[k])
    ensures Base(dir + name + slashes) == name
  {
    hide TrimRight, LastElement;
    assert (dir + name)[|dir + name| - 1] == name[|name| - 1];
    TrimSlashes(dir + name, slashes);
    LastElementOf(dir, name);
  }

  lemma {:induction false} OnlySlashes(slashes: string)
    requires forall k | 0 <= k < |slashes| :: slashes[k] == '/'
    ensures TrimRight(slashes, Slash) == ""
  {
    if slashes != "" {
      OnlySlashes(slashes[..|slashes| - 1]);
    }
  }

  /** A path without any name. */
  lemma BaseOfSlashes(slashes: string)
    requires forall k | 0 <= k < |slashes| :: slashes[k] == '/'
    ensures Base(slashes) == if slashes == "" then "." else "/"
  {
    OnlySlashes(slashes);
  }

  function IndexAny(s: string, chars: string): (i: Option<nat>)
    ensures i.Some? ==> i.value < |s| && s[i.value] in chars && forall k | 0 <= k < i.value :: s[k] !in chars
    ensures i.None? ==> forall k | 0 <= k < |s| :: s[k] !in chars
  {
    if s == "" then None
    else if s[0] in chars then Some(0)
    else
      match IndexAny(s[1..], chars)
      case None => None
      case Some(i) => Some(i + 1)
  }

  // ---------------------------------------------------------------------------------------------

  ghost predicate Harmless(token: string) {
    Base(token) !in BLOCKED && forall k | 0 <= k < |token| :: token[k] !in METACHARACTERS
  }

  /** The token lists a start command may stand for. */
  ghost predicate Acceptable(ts: seq<string>) {
    ts != [] && Base(ts[0]) in ALLOWED && forall k | 0 <= k < |ts| :: Harmless(ts[k])
  }

  function FirstBlocked(ts: seq<string>): (b: Option<string>)
    ensures b.Some? <==> exists k | 0 <= k < |ts| :: Base(ts[k]) in BLOCKED
  {
    if ts == [] then None
    else if Base(ts[0]) in BLOCKED then Some(ts[0])
    else
      assert forall k | 1 <= k < |ts| :: ts[k] == ts[1..][k - 1];
      FirstBlocked(ts[1..])
  }

  /** Every check in the order of the source, with the refusal it makes. */
  function Verdict(raw: string): Result<seq<string>, Refusal> {
    var trimmed := TrimSpace(raw);
    var bad := IndexAny(trimmed, METACHARACTERS);
    if trimmed == "" then Err(Empty)
    else if bad.Some? then Err(Forbidden(trimmed[bad.value]))
    else
      match Split(trimmed)
      case Err(e) => Err(e)
      case Ok(ts) =>
        if ts == [] then Err(Empty)
        else if Base(ts[0]) !in ALLOWED then Err(NotAllowed(Base(ts[0])))
        else if FirstBlocked(ts).Some? then Err(Blocked(FirstBlocked(ts).value))
        else Ok(ts)
  }

  ghost predicate Within(st: State, s: string) {
    && (forall k | 0 <= k < |st.cur| :: st.cur[k] in s)
    && forall i, k | 0 <= i < |st.tokens| && 0 <= k < |st.tokens[i]| :: st.tokens[i][k] in s
  }

  lemma StepWithin(st: State, c: char, s: string)
    requires Within(st, s) && c in s
    ensures Within(Step(st, c), s) && Within(Flush(st), s)
  {
  }

  lemma {:induction false} RunWithin(st: State, part: string, s: string)
    requires Within(st, s) && forall k | 0 <= k < |part| :: part[k] in s
    ensures Within(Run(st, part), s)
    decreases |part|
  {
    hide Within, Step, Flush;
    if part == "" {
    } else {
      assert part[0] in s && forall k | 0 <= k < |part[1..]| :: part[1..][k] == part[k + 1];
      StepWithin(st, part[0], s);
      RunWithin(Step(st, part[0]), part[1..], s);
    }
  }

  /** Tokens hold no characters the text does not have. */
  lemma TokensWithin(s: string, i: nat, k: nat)
    requires Split(s).Ok? && i < |Split(s).value| && k < |Split(s).value[i]|
    ensures Split(s).value[i][k] in s
  {
    hide Run;
    RunWithin(START, s, s);
    var st := Run(START, s);
    if s != "" {
      StepWithin(st, s[0], s);
    }
  }

  /** What is accepted is acceptable. */
  lemma VerdictIsAcceptable(raw: string)
    requires Verdict(raw).Ok?
    ensures Acceptable(Verdict(raw).value)
  {
    var trimmed := TrimSpace(raw);
    var ts := Split(trimmed).value;
    hide Split, TrimSpace, IndexAny, Base;
    forall i | 0 <= i < |ts|
      ensures Harmless(ts[i])
    {
      forall k | 0 <= k < |ts[i]|
        ensures ts[i][k] !in METACHARACTERS
      {
        TokensWithin(trimmed, i, k);
      }
    }
  }

  method ValidateCommand(raw: string) returns (r: Result<seq<string>, Refusal>)
    ensures r == Verdict(raw)
    ensures r.Ok? ==> Acceptable(r.value) && r == Split(TrimSpace(raw))
  {
    hide Split, Base, Acceptable;
    var trimmed := TrimSpace(raw);
    if trimmed == "" {
      return Err(Empty);
    }
    var i := IndexAny(trimmed, METACHARACTERS);
    if i.Some? {
      return Err(Forbidden(trimmed[i.value]));
    }
    var split := SplitCommand(trimmed);
    if split.Err? {
      return split;
    }
    var tokens := split.value;
    if |tokens| == 0 {
      return Err(Empty);
    }
    var base := Base(tokens[0]);
    if base !in ALLOWED {
      return Err(NotAllowed(base));
    }
    assert tokens[0..] == tokens;
    for j := 0 to |tokens|
      invariant FirstBlocked(tokens) == FirstBlocked(tokens[j..])
    {
      assert tokens[j..][1..] == tokens[j + 1..];
      if Base(tokens[j]) in BLOCKED {
        return Err(Blocked(tokens[j]));
      }
    }
    VerdictIsAcceptable(raw);
    return Ok(tokens);
  }

  /**
   A command is accepted exactly when it has no metacharacter between its outer blanks, its
   quotations are closed, and its tokens are acceptable.
   */
  lemma AcceptedExactly(raw: string)
    ensures Verdict(raw).Ok? <==>
            && Split(TrimSpace(raw)).Ok? && Acceptable(Split(TrimSpace(raw)).value)
            && forall k | 0 <= k < |TrimSpace(raw)| :: TrimSpace(raw)[k] !in METACHARACTERS
    ensures Verdict(raw).Ok? ==> Verdict(raw) == Split(TrimSpace(raw))
  {
    if Verdict(raw).Ok? {
      VerdictIsAcceptable(raw);
    }
    if Split(TrimSpace(raw)).Ok? && Acceptable(Split(TrimSpace(raw)).value) {
      var ts := Split(TrimSpace(raw)).value;
      EmptySplit();
      hide Split, TrimSpace, Base;
      assert forall k | 0 <= k < |ts| :: Harmless(ts[k]);
    }
  }

  lemma EmptySplit()
    ensures Split("") == Ok([])
  {
  }

  // ---------------------------------------------------------------------------------------------
  // Acceptable token lists, once quoted, are accepted as they are.

  /** Quotes around a text made of other quotes and the token's own characters. */
  ghost predicate Enclosed(s: string, token: string) {
    s != "" && Quote(s[0]) && Quote(s[|s| - 1]) && forall k | 0 <= k < |s| :: Quote(s[k]) || s[k] in token
  }

  lemma EnclosedAppend(a: string, b: string, s: string, t: string, token: string)
    requires (a == "" || Enclosed(a, s)) && Enclosed(b, t)
    requires (forall c <- s :: c in token) && (forall c <- t :: c in token)
    ensures Enclosed(a + b, token)
  {
  }

  lemma EnclosedSegment(q: char, text: string)
    requires Quote(q)
    ensures Enclosed(ShowSegment(Quoted(q, text)), text)
  {
  }

  lemma {:induction false} MixedEnclosed(t: string)
    ensures if t == "" then ShowWord(Mixed(t)) == "" else Enclosed(ShowWord(Mixed(t)), t)
  {
    if t == "" {
    } else {
      hide Enclosed, ShowSegment;
      var n := |t| - 1;
      var g := Quoted(if t[n] == '\'' then '"' else '\'', [t[n]]);
      MixedEnclosed(t[..n]);
      ShowWordAppend(Mixed(t[..n]), g);
      EnclosedSegment(g.q, [t[n]]);
      EnclosedAppend(ShowWord(Mixed(t[..n])), ShowSegment(g), t[..n], [t[n]], t);
    }
  }

  lemma QuoteWordEnclosed(t: string)
    ensures Enclosed(ShowWord(QuoteWord(t)), t)
  {
    hide Enclosed, ShowSegment, ShowWord, Mixed;
    var q := if '\'' !in t then '\'' else '"';
    EnclosedSegment(q, t);
    ShowWordAppend([], Quoted(q, t));
    ShowNothing();
    assert [] + [Quoted(q, t)] == [Quoted(q, t)] && "" + ShowSegment(Quoted(q, t)) == ShowSegment(Quoted(q, t));
    MixedEnclosed(t);
  }

  /** No white space at either end, and no metacharacter that the tokens do not have. */
  ghost predicate Tidy(s: string) {
    && (s != "" ==> !Space(s[0]) && !Space(s[|s| - 1]))
    && forall k | 0 <= k < |s| :: s[k] !in METACHARACTERS
  }

  ghost predicate Plain(ts: seq<string>) {
    forall i, k | 0 <= i < |ts| && 0 <= k < |ts[i]| :: ts[i][k] !in METACHARACTERS
  }

  lemma EnclosedIsTidy(s: string, token: string)
    requires Enclosed(s, token) && forall k | 0 <= k < |token| :: token[k] !in METACHARACTERS
    ensures s != "" && Tidy(s)
  {
  }

  lemma TidyAppend(a: string, b: string)
    requires a != "" && b != "" && Tidy(a) && Tidy(b)
    ensures Tidy(a + " " + b)
  {
  }

  lemma {:induction false} QuoteAllIsTidy(ts: seq<string>)
    requires Plain(ts)
    ensures Tidy(QuoteAll(ts)) && (ts != [] ==> QuoteAll(ts) != "")
  {
    if ts == [] {
    } else {
      hide Tidy, Enclosed, ShowWord, QuoteWord;
      var init, t := ts[..|ts| - 1], ts[|ts| - 1];
      var ws := QuoteWords(ts);
      assert ws[..|ws| - 1] == QuoteWords(init);
      QuoteAllIsTidy(init);
      QuoteWordEnclosed(t);
      EnclosedIsTidy(ShowWord(QuoteWord(t)), t);
      if init != [] {
        TidyAppend(QuoteAll(init), ShowWord(QuoteWord(t)));
      }
    }
  }

  /** Any list of tokens, quoted in full, is accepted as that list exactly when it is acceptable. */
  lemma QuotedIsAccepted(ts: seq<string>)
    ensures Verdict(QuoteAll(ts)) == Ok(ts) <==> Acceptable(ts)
  {
    hide Split, QuoteAll, Base, Verdict;
    if Acceptable(ts) {
      assert Plain(ts) by {
        assert forall i | 0 <= i < |ts| :: Harmless(ts[i]);
      }
      QuoteAllIsTidy(ts);
      TrimNothing(QuoteAll(ts), Space);
      SplitInvertsQuoteAll(ts);
      AcceptedExactly(QuoteAll(ts));
    }
    if Verdict(QuoteAll(ts)) == Ok(ts) {
      VerdictIsAcceptable(QuoteAll(ts));
    }
  }

  // ---------------------------------------------------------------------------------------------
  // The second check for an empty command never fires.

  ghost predicate Busy(st: State) {
    st.inToken || st.tokens != []
  }

  lemma {:induction false} StaysBusy(st: State, s: string)
    requires Busy(st)
    ensures Busy(Run(st, s))
    decreases |s|
  {
    if s == "" {
    } else {
      StaysBusy(Step(st, s[0]), s[1..]);
    }
  }

  lemma {:induction false} TrimRightPrefix(s: string, kind: char -> bool)
    ensures TrimRight(s, kind) <= s
  {
    if s != "" && kind(s[|s| - 1]) {
      TrimRightPrefix(s[..|s| - 1], kind);
    }
  }

  lemma {:induction false} TrimLeftFirst(s: string, kind: char -> bool)
    ensures TrimLeft(s, kind) != "" ==> !kind(TrimLeft(s, kind)[0])
  {
    if s == "" {
    } else {
      TrimLeftFirst(s[1..], kind);
    }
  }

  /** A trimmed text that is not empty has a token. */
  lemma TrimmedHasToken(raw: string)
    requires TrimSpace(raw) != ""
    ensures Split(TrimSpace(raw)) != Ok([])
  {
    var s := TrimSpace(raw);
    var left := TrimLeft(raw, Space);
    TrimLeftFirst(raw, Space);
    TrimRightPrefix(left, Space);
    assert s[0] == left[0];
    assert Run(START, s) == Run(Step(START, s[0]), s[1..]);
    StaysBusy(Step(START, s[0]), s[1..]);
    hide Run, TrimSpace;
  }

  /** A command is refused as empty exactly when there is nothing but white space. */
  lemma EmptyExactly(raw: string)
    ensures Verdict(raw) == Err(Empty) <==> TrimSpace(raw) == ""
  {
    if TrimSpace(raw) != "" {
      TrimmedHasToken(raw);
    }
    hide TrimSpace, Base, IndexAny, FirstBlocked, Run;
  }

  // ---------------------------------------------------------------------------------------------
  // Every refusal.

  /** ts[k] is the first of its kind. */
  ghost predicate First<T>(ts: seq<T>, k: nat, kind: T -> bool) {
    k < |ts| && kind(ts[k]) && forall j | 0 <= j < k :: !kind(ts[j])
  }

  predicate Metacharacter(c: char) {
    c in METACHARACTERS
  }

  predicate BlockedProgram(token: string) {
    Base(token) in BLOCKED
  }

  /** When a trimmed text is refused for this. */
  ghost predicate Refused(t: string, e: Refusal) {
    var clean := forall k | 0 <= k < |t| :: t[k] !in METACHARACTERS;
    match e
    case Empty => t == ""
    case Forbidden(c) => exists k: nat :: First(t, k, Metacharacter) && t[k] == c
    case Unbalanced => clean && Split(t).Err?
    case NotAllowed(program) =>
      clean && Split(t).Ok? && Split(t).value != [] && program == Base(Split(t).value[0]) && program !in ALLOWED
    case Blocked(token) =>
      && clean && Split(t).Ok? && Split(t).value != [] && Base(Split(t).value[0]) in ALLOWED
      && exists k: nat :: First(Split(t).value, k, BlockedProgram) && Split(t).value[k] == token
  }

  lemma FirstTail<T>(ts: seq<T>, k: nat, kind: T -> bool)
    requires ts != [] && !kind(ts[0])
    ensures First(ts, k + 1, kind) <==> First(ts[1..], k, kind)
    ensures !First(ts, 0, kind)
  {
    if First(ts, k + 1, kind) {
      assert forall j | 0 <= j < k :: ts[1..][j] == ts[j + 1];
    }
    if First(ts[1..], k, kind) {
      assert forall j | 1 <= j < k + 1 :: ts[j] == ts[1..][j - 1];
    }
  }

  lemma {:induction false} FirstBlockedIs(ts: seq<string>, token: string)
    ensures FirstBlocked(ts) == Some(token) <==> exists k: nat :: First(ts, k, BlockedProgram) && ts[k] == token
  {
    if ts == [] {
    } else if Base(ts[0]) in BLOCKED {
      hide Base;
      assert First(ts, 0, BlockedProgram);
    } else {
      assert !BlockedProgram(ts[0]);
      hide First, BlockedProgram, Base;
      FirstBlockedIs(ts[1..], token);
      if exists k: nat :: First(ts[1..], k, BlockedProgram) && ts[1..][k] == token {
        var k: nat :| First(ts[1..], k, BlockedProgram) && ts[1..][k] == token;
        FirstTail(ts, k, BlockedProgram);
      }
      if exists k: nat :: First(ts, k, BlockedProgram) && ts[k] == token {
        var k: nat :| First(ts, k, BlockedProgram) && ts[k] == token;
        FirstTail(ts, if k == 0 then 0 else k - 1, BlockedProgram);
      }
    }
  }

  lemma FirstMetacharacter(t: string, c: char)
    ensures var i := IndexAny(t, METACHARACTERS);
            i.Some? && t[i.value] == c <==> exists k: nat :: First(t, k, Metacharacter) && t[k] == c
  {
    var i := IndexAny(t, METACHARACTERS);
    if i.Some? {
      assert First(t, i.value, Metacharacter);
    }
  }

  lemma SplitOnlyUnbalanced(t: string)
    ensures Split(t).Err? ==> Split(t) == Err(Unbalanced)
  {
  }

  /** A command is refused for exactly the first check it does not pass, and with what that check has met. */
  lemma RefusedExactly(raw: string, e: Refusal)
    ensures Verdict(raw) == Err(e) <==> Refused(TrimSpace(raw), e)
  {
    var t := TrimSpace(raw);
    EmptySplit();
    SplitOnlyUnbalanced(t);
    if t != "" {
      TrimmedHasToken(raw);
    }
    if e.Forbidden? {
      FirstMetacharacter(t, e.c);
    }
    if e.Blocked? && Split(t).Ok? {
      FirstBlockedIs(Split(t).value, e.token);
    }
    hide Split, TrimSpace, Base, First, FirstBlocked, IndexAny;
  }
}
