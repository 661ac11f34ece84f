/**
 Start commands (SplitCommand and ValidateCommand in internal/security/commands.go): a scanner
 that honours quotes, against a grammar of what a command line is made of.
 */
module Command {
  import opened Prelude

  predicate Quote(c: char) {
    c == '\'' || c == '"'
  }

  predicate Blank(c: char) {
    c == ' ' || c == '\t'
  }

  // ---------------------------------------------------------------------------------------------
  // The scanner.

  datatype State = State(tokens: seq<string>, cur: string, quote: Option<char>, inToken: bool)

  const START := State([], "", None, false)

  function Flush(st: State): State {
    if st.inToken then State(st.tokens + [st.cur], "", st.quote, false) else st
  }

  function Step(st: State, c: char): State {
    if st.quote.Some? then
      if c == st.quote.value then st.(quote := None) else st.(cur := st.cur + [c])
    else if Quote(c) then st.(quote := Some(c), inToken := true)
    else if Blank(c) then Flush(st)
    else st.(cur := st.cur + [c], inToken := true)
  }

  function Run(st: State, s: string): State
    decreases |s|
  {
    if s == "" then st else Run(Step(st, s[0]), s[1..])
  }

  datatype Refusal = Empty | Forbidden(c: char) | Unbalanced | NotAllowed(program: string) | Blocked(token: string)

  function Split(s: string): Result<seq<string>, Refusal> {
    var st := Run(START, s);
    if st.quote.Some? then Err(Unbalanced) else Ok(Flush(st).tokens)
  }

  method SplitCommand(s: string) returns (r: Result<seq<string>, Refusal>)
    ensures r == Split(s)
  {
    var tokens, cur, quote, inToken := [], "", None, false;
    assert s[0..] == s;
    for i := 0 to |s|
      invariant Run(START, s) == Run(State(tokens, cur, quote, inToken), s[i..])
    {
      var c := s[i];
      assert s[i..][1..] == s[i + 1..];
      if quote.Some? {
        if c == quote.value {
          quote := None;
        } else {
          cur := cur + [c];
        }
      } else if Quote(c) {
        quote := Some(c);
        inToken := true;
      } else if Blank(c) {
        if inToken {
          tokens, cur, inToken := tokens + [cur], "", false;
        }
      } else {
        inToken := true;
        cur := cur + [c];
      }
    }
    if quote.Some? {
      return Err(Unbalanced);
    }
    if inToken {
      tokens := tokens + [cur];
    }
    return Ok(tokens);
  }

  lemma {:induction false} RunAppend(st: State, a: string, b: string)
    ensures Run(st, a + b) == Run(Run(st, a), b)
    decreases |a|
  {
    if a == "" {
      assert a + b == b;
    } else {
      assert (a + b)[1..] == a[1..] + b;
      RunAppend(Step(st, a[0]), a[1..], b);
    }
  }

  // ---------------------------------------------------------------------------------------------
  // The grammar: blanks, then words with blanks behind them, the last word perhaps without, and
  // perhaps a quotation that is never closed.

  datatype Segment = Bare(c: char) | Quoted(q: char, text: string)

  type Word = seq<Segment>

  datatype Spaced = Spaced(word: Word, gap: string)

  datatype Layout = Layout(lead: string, done: seq<Spaced>, word: Word, unclosed: Option<Segment>)

  ghost predicate SegmentOk(g: Segment) {
    match g
    case Bare(c) => c != ' ' && c != '\t' && c != '\'' && c != '"'
    case Quoted(q, text) => (q == '\'' || q == '"') && q !in text
  }

  ghost predicate WordOk(w: Word) {
    forall k | 0 <= k < |w| :: SegmentOk(w[k])
  }

  ghost predicate Blanks(s: string) {
    forall k | 0 <= k < |s| :: s[k] == ' ' || s[k] == '\t'
  }

  ghost predicate SpacedOk(d: Spaced) {
    d.word != [] && WordOk(d.word) && d.gap != "" && Blanks(d.gap)
  }

  ghost predicate DoneOk(done: seq<Spaced>) {
    forall k | 0 <= k < |done| :: SpacedOk(done[k])
  }

  ghost predicate LayoutOk(l: Layout) {
    && Blanks(l.lead) && DoneOk(l.done) && WordOk(l.word)
    && (l.unclosed.Some? ==> l.unclosed.value.Quoted? && SegmentOk(l.unclosed.value))
  }

  function ShowSegment(g: Segment): string {
    match g
    case Bare(c) => [c]
    case Quoted(q, text) => [q] + text + [q]
  }

  function SegmentText(g: Segment): string {
    match g
    case Bare(c) => [c]
    case Quoted(_, text) => text
  }

  function ShowWord(w: Word): string {
    if w == [] then "" else ShowWord(w[..|w| - 1]) + ShowSegment(w[|w| - 1])
  }

  /** The token a word stands for. */
  function WordText(w: Word): string {
    if w == [] then "" else WordText(w[..|w| - 1]) + SegmentText(w[|w| - 1])
  }

  function ShowDone(done: seq<Spaced>): string {
    if done == [] then ""
    else ShowDone(done[..|done| - 1]) + (ShowWord(done[|done| - 1].word) + done[|done| - 1].gap)
  }

  function Tokens(done: seq<Spaced>): (ts: seq<string>)
    ensures |ts| == |done|
  {
    if done == [] then [] else Tokens(done[..|done| - 1]) + [WordText(done[|done| - 1].word)]
  }

  function ShowUnclosed(u: Option<Segment>): string {
    match u
    case Some(Quoted(q, text)) => [q] + text
    case _ => ""
  }

  function Show(l: Layout): string {
    l.lead + ShowDone(l.done) + ShowWord(l.word) + ShowUnclosed(l.unclosed)
  }

  /** All the tokens of a layout. */
  function Meaning(l: Layout): seq<string> {
    Tokens(l.done) + if l.word == [] then [] else [WordText(l.word)]
  }

  // ---------------------------------------------------------------------------------------------
  // The scanner reads every layout as it is meant.

  lemma {:induction false} RunBlanks(st: State, s: string)
    requires Blanks(s) && st.quote.None?
    ensures Run(st, s) == if s == "" then st else Flush(st)
    decreases |s|
  {
    if s == "" {
    } else {
      RunBlanks(Flush(st), s[1..]);
    }
  }

  lemma {:induction false} RunQuotedText(st: State, text: string)
    requires st.quote.Some? && st.quote.value !in text
    ensures Run(st, text) == st.(cur := st.cur + text)
    decreases |text|
  {
    if text != "" {
      RunQuotedText(Step(st, text[0]), text[1..]);
      assert st.cur + [text[0]] + text[1..] == st.cur + text;
    } else {
      assert st.cur + text == st.cur;
    }
  }

  lemma RunOpen(st: State, q: char, text: string)
    requires st.quote.None? && Quote(q) && q !in text
    ensures Run(st, [q] + text) == st.(cur := st.cur + text, quote := Some(q), inToken := true)
  {
    assert ([q] + text)[1..] == text;
    RunQuotedText(Step(st, q), text);
  }

  lemma RunSegment(st: State, g: Segment)
    requires st.quote.None? && SegmentOk(g)
    ensures Run(st, ShowSegment(g)) == st.(cur := st.cur + SegmentText(g), inToken := true)
  {
    match g
    case Bare(c) =>
      assert Run(Step(st, c), [c][1..]) == Step(st, c);
    case Quoted(q, text) =>
      RunOpen(st, q, text);
      var open := st.(cur := st.cur + text, quote := Some(q), inToken := true);
      RunAppend(st, [q] + text, [q]);
      assert Run(Step(open, q), [q][1..]) == Step(open, q);
  }

  lemma WordNothing(st: State)
    ensures ShowWord([]) == "" && WordText([]) == "" && Run(st, "") == st
  {
  }

  lemma WordLast(w: Word)
    requires w != []
    ensures var n := |w| - 1;
            && ShowWord(w) == ShowWord(w[..n]) + ShowSegment(w[n])
            && WordText(w) == WordText(w[..n]) + SegmentText(w[n])
            && (WordOk(w) ==> WordOk(w[..n]) && SegmentOk(w[n]))
  {
    hide SegmentOk, ShowSegment, SegmentText;
  }

  lemma {:induction false} RunWord(st: State, w: Word)
    requires st.quote.None? && WordOk(w)
    ensures Run(st, ShowWord(w)) == st.(cur := st.cur + WordText(w), inToken := st.inToken || w != [])
  {
    hide Run, SegmentOk, ShowSegment, SegmentText, ShowWord, WordText, WordOk;
    if w == [] {
      WordNothing(st);
      assert st.cur + "" == st.cur;
    } else {
      var n := |w| - 1;
      WordLast(w);
      RunWord(st, w[..n]);
      RunAppend(st, ShowWord(w[..n]), ShowSegment(w[n]));
      RunSegment(Run(st, ShowWord(w[..n])), w[n]);
      assert st.cur + WordText(w[..n]) + SegmentText(w[n]) == st.cur + WordText(w);
    }
  }

  lemma RunSpaced(ts: seq<string>, d: Spaced)
    requires SpacedOk(d)
    ensures Run(State(ts, "", None, false), ShowWord(d.word) + d.gap) == State(ts + [WordText(d.word)], "", None, false)
  {
    hide Run, ShowWord, WordText, WordOk;
    var st := State(ts, "", None, false);
    RunWord(st, d.word);
    assert "" + WordText(d.word) == WordText(d.word);
    RunAppend(st, ShowWord(d.word), d.gap);
    RunBlanks(Run(st, ShowWord(d.word)), d.gap);
  }

  lemma {:induction false} RunDone(done: seq<Spaced>)
    requires DoneOk(done)
    ensures Run(START, ShowDone(done)) == State(Tokens(done), "", None, false)
  {
    if done == [] {
    } else {
      hide SpacedOk;
      var n := |done| - 1;
      RunDone(done[..n]);
      RunAppend(START, ShowDone(done[..n]), ShowWord(done[n].word) + done[n].gap);
      RunSpaced(Tokens(done[..n]), done[n]);
    }
  }

  lemma RunNothing(st: State)
    ensures Run(st, "") == st
  {
  }

  function StateOf(l: Layout): State {
    match l.unclosed
    case Some(Quoted(q, text)) => State(Tokens(l.done), WordText(l.word) + text, Some(q), true)
    case _ => State(Tokens(l.done), WordText(l.word), None, l.word != [])
  }

  lemma RunLayout(l: Layout)
    requires LayoutOk(l)
    ensures Run(START, Show(l)) == StateOf(l)
  {
    hide Run, ShowDone, ShowWord, WordText, Tokens, Blanks, DoneOk, WordOk;
    var a, b, c, d := l.lead, ShowDone(l.done), ShowWord(l.word), ShowUnclosed(l.unclosed);
    RunBlanks(START, a);
    RunAppend(START, a, b);
    RunDone(l.done);
    var st := State(Tokens(l.done), "", None, false);
    RunAppend(START, a + b, c);
    RunWord(st, l.word);
    assert "" + WordText(l.word) == WordText(l.word);
    RunAppend(START, a + b + c, d);
    if l.unclosed.Some? {
      RunOpen(st.(cur := WordText(l.word), inToken := l.word != []), l.unclosed.value.q, l.unclosed.value.text);
    } else {
      RunNothing(st.(cur := WordText(l.word), inToken := l.word != []));
    }
  }

  // ---------------------------------------------------------------------------------------------
  // Every text has a layout.

  function AddChar(l: Layout, c: char): Layout {
    match l.unclosed
    case Some(Quoted(q, text)) =>
      if c == q then l.(word := l.word + [Quoted(q, text)], unclosed := None)
      else l.(unclosed := Some(Quoted(q, text + [c])))
    case _ =>
      if Quote(c) then l.(unclosed := Some(Quoted(c, "")))
      else if !Blank(c) then l.(word := l.word + [Bare(c)])
      else if l.word != [] then l.(done := l.done + [Spaced(l.word, [c])], word := [])
      else if l.done == [] then l.(lead := l.lead + [c])
      else
        var n := |l.done| - 1;
        l.(done := l.done[..n] + [l.done[n].(gap := l.done[n].gap + [c])])
  }

  lemma AddCharOk(l: Layout, c: char)
    requires LayoutOk(l)
    ensures LayoutOk(AddChar(l, c))
  {
  }

  lemma ShowWordAppend(w: Word, g: Segment)
    ensures ShowWord(w + [g]) == ShowWord(w) + ShowSegment(g)
  {
    assert (w + [g])[..|w|] == w;
  }

  lemma ShowDoneAppend(done: seq<Spaced>, d: Spaced)
    ensures ShowDone(done + [d]) == ShowDone(done) + (ShowWord(d.word) + d.gap)
  {
    assert (done + [d])[..|done|] == done;
  }

  lemma AddCharShows(l: Layout, c: char)
    requires LayoutOk(l)
    ensures Show(AddChar(l, c)) == Show(l) + [c]
  {
    hide ShowDone, ShowWord, WordOk, Blanks, DoneOk;
    if l.unclosed.Some? {
      ShowWordAppend(l.word, l.unclosed.value);
    } else if Quote(c) {
    } else if !Blank(c) {
      ShowWordAppend(l.word, Bare(c));
    } else if l.word != [] {
      ShowDoneAppend(l.done, Spaced(l.word, [c]));
      assert ShowWord([]) == "" by { ShowNothing(); }
    } else {
      ShowNothing();
      if l.done != [] {
        var n := |l.done| - 1;
        ShowDoneAppend(l.done[..n], l.done[n]);
        assert l.done == l.done[..n] + [l.done[n]];
        ShowDoneAppend(l.done[..n], l.done[n].(gap := l.done[n].gap + [c]));
      }
    }
  }

  lemma ShowNothing()
    ensures ShowWord([]) == "" && ShowDone([]) == ""
  {
  }

  lemma EmptyLayout()
    ensures LayoutOk(Layout("", [], [], None)) && Show(Layout("", [], [], None)) == ""
  {
  }

  lemma {:induction false} LayoutExists(s: string) returns (l: Layout)
    ensures LayoutOk(l) && Show(l) == s
  {
    hide LayoutOk, Show, AddChar;
    if s == "" {
      l := Layout("", [], [], None);
      EmptyLayout();
    } else {
      var n := |s| - 1;
      var l' := LayoutExists(s[..n]);
      l := AddChar(l', s[n]);
      AddCharOk(l', s[n]);
      AddCharShows(l', s[n]);
    }
  }

  /**
   The scanner decides the grammar: every text has a layout, SplitCommand fails exactly when a
   quotation in it is never closed, and otherwise returns the layout's tokens.
   */
  lemma SplitReadsLayout(l: Layout)
    requires LayoutOk(l)
    ensures Split(Show(l)) == if l.unclosed.Some? then Err(Unbalanced) else Ok(Meaning(l))
  {
    hide Run, Show, WordText, Tokens;
    RunLayout(l);
    if l.unclosed.None? && l.word == [] {
      assert Tokens(l.done) + [] == Tokens(l.done);
    }
  }

  /**
   SplitCommand decides the grammar: the text has a layout, the answer is the layout's tokens,
   and it fails exactly when a quotation is never closed.
   */
  lemma SplitDecides(s: string) returns (l: Layout)
    ensures LayoutOk(l) && Show(l) == s
    ensures Split(s) == if l.unclosed.Some? then Err(Unbalanced) else Ok(Meaning(l))
  {
    hide LayoutOk, Show, Split;
    l := LayoutExists(s);
    SplitReadsLayout(l);
  }

  lemma {:induction false} RunBare(st: State, s: string)
    requires st.quote.None? && s != "" && forall k | 0 <= k < |s| :: s[k] !in {' ', '\t', '\'', '"'}
    ensures Run(st, s) == st.(cur := st.cur + s, inToken := true)
    decreases |s|
  {
    var next := st.(cur := st.cur + [s[0]], inToken := true);
    assert s[0] !in {' ', '\t', '\'', '"'} && Step(st, s[0]) == next;
    if |s| == 1 {
      assert st.cur + s == next.cur && Run(next, s[1..]) == next;
    } else {
      RunBare(next, s[1..]);
      assert st.cur + s == next.cur + s[1..];
    }
  }

  /** A text without blanks and quotes is its own token. */
  lemma BareIsToken(s: string)
    requires s != "" && forall k | 0 <= k < |s| :: s[k] !in {' ', '\t', '\'', '"'}
    ensures Split(s) == Ok([s])
  {
    RunBare(START, s);
    assert "" + s == s && START.tokens + [s] == [s];
    hide Run;
  }

  // ---------------------------------------------------------------------------------------------
  // Concatenation.

  lemma {:induction false} RunIsSane(st: State, s: string)
    requires !st.inToken ==> st.cur == "" && st.quote.None?
    ensures var st' := Run(st, s); !st'.inToken ==> st'.cur == "" && st'.quote.None?
    decreases |s|
  {
    if s == "" {
    } else {
      RunIsSane(Step(st, s[0]), s[1..]);
    }
  }

  function After(before: seq<string>, st: State): State {
    st.(tokens := before + st.tokens)
  }

  lemma StepAfter(before: seq<string>, st: State, c: char)
    ensures Step(After(before, st), c) == After(before, Step(st, c))
    ensures Flush(After(before, st)) == After(before, Flush(st))
  {
    assert before + st.tokens + [st.cur] == before + (st.tokens + [st.cur]);
  }

  lemma {:induction false} RunAfter(before: seq<string>, st: State, s: string)
    ensures Run(After(before, st), s) == After(before, Run(st, s))
    decreases |s|
  {
    if s == "" {
    } else {
      StepAfter(before, st, s[0]);
      RunAfter(before, Step(st, s[0]), s[1..]);
      hide Step, After;
    }
  }

  /** With a balanced text in front, a command splits into that text's tokens and its own. */
  lemma SplitConcat(a: string, b: string)
    requires Split(a).Ok?
    ensures Split(a + " " + b) == (match Split(b) case Ok(ts) => Ok(Split(a).value + ts) case Err(e) => Err(e))
  {
    var st := Run(START, a);
    RunIsSane(START, a);
    var before := Split(a).value;
    RunAppend(START, a, " ");
    RunAppend(START, a + " ", b);
    assert Run(Step(st, ' '), " "[1..]) == Step(st, ' ');
    hide Run;
    assert Step(st, ' ') == After(before, START);
    RunAfter(before, START, b);
    StepAfter(before, Run(START, b), ' ');
  }

  // ---------------------------------------------------------------------------------------------
  // Quoting undoes splitting.

  ghost predicate WordsOk(ws: seq<Word>) {
    forall k | 0 <= k < |ws| :: ws[k] != [] && WordOk(ws[k])
  }

  function Texts(ws: seq<Word>): (ts: seq<string>)
    ensures |ts| == |ws|
  {
    if ws == [] then [] else Texts(ws[..|ws| - 1]) + [WordText(ws[|ws| - 1])]
  }

  function Join(ws: seq<Word>): string {
    if ws == [] then ""
    else if |ws| == 1 then ShowWord(ws[0])
    else Join(ws[..|ws| - 1]) + " " + ShowWord(ws[|ws| - 1])
  }

  lemma SplitWord(w: Word)
    requires w != [] && WordOk(w)
    ensures Split(ShowWord(w)) == Ok([WordText(w)])
  {
    hide Run, ShowWord, WordText, WordOk;
    RunWord(START, w);
    assert START.cur + WordText(w) == WordText(w);
    assert START.tokens + [WordText(w)] == [WordText(w)];
  }

  lemma WordsLast(ws: seq<Word>)
    requires WordsOk(ws) && ws != []
    ensures var init, w := ws[..|ws| - 1], ws[|ws| - 1];
            && WordsOk(init) && w != [] && WordOk(w) && Texts(ws) == Texts(init) + [WordText(w)]
            && Join(ws) == if init == [] then ShowWord(w) else Join(init) + " " + ShowWord(w)
  {
    hide WordOk, ShowWord, WordText;
  }

  /** Words, each mixing bare characters and quotations in any way, split back into their texts. */
  lemma {:induction false} WordsSplitBack(ws: seq<Word>)
    requires WordsOk(ws)
    ensures Split(Join(ws)) == Ok(Texts(ws))
  {
    if ws == [] {
    } else {
      hide Split, ShowWord, WordText, WordOk, WordsOk, Join, Texts;
      var init, w := ws[..|ws| - 1], ws[|ws| - 1];
      WordsLast(ws);
      SplitWord(w);
      WordsSplitBack(init);
      if init == [] {
        NothingIsWord();
        assert Texts([]) + [WordText(w)] == [WordText(w)];
      } else {
        SplitConcat(Join(init), ShowWord(w));
      }
    }
  }

  /** Each character in a quotation of its own. */
  function Mixed(t: string): Word {
    if t == "" then []
    else Mixed(t[..|t| - 1]) + [Quoted(if t[|t| - 1] == '\'' then '"' else '\'', [t[|t| - 1]])]
  }

  /** In single quotes if that is possible, or else in double quotes, or else in both. */
  function QuoteWord(t: string): Word {
    if '\'' !in t then [Quoted('\'', t)]
    else if '"' !in t then [Quoted('"', t)]
    else Mixed(t)
  }

  lemma WordAppend(w: Word, g: Segment)
    ensures WordText(w + [g]) == WordText(w) + SegmentText(g)
    ensures WordOk(w) && SegmentOk(g) ==> WordOk(w + [g])
  {
    hide SegmentText, SegmentOk;
    assert (w + [g])[..|w|] == w;
  }

  lemma NothingIsWord()
    ensures WordOk([]) && WordText([]) == "" && WordsOk([]) && Texts([]) == []
  {
  }

  lemma {:induction false} MixedIsWord(t: string)
    ensures WordOk(Mixed(t)) && WordText(Mixed(t)) == t && (t != "" ==> Mixed(t) != [])
  {
    hide WordOk, WordText;
    if t == "" {
      NothingIsWord();
    } else {
      var n := |t| - 1;
      var g := Quoted(if t[n] == '\'' then '"' else '\'', [t[n]]);
      assert SegmentOk(g) && SegmentText(g) == [t[n]];
      hide SegmentOk, SegmentText;
      MixedIsWord(t[..n]);
      WordAppend(Mixed(t[..n]), g);
      assert t[..n] + [t[n]] == t;
    }
  }

  lemma QuotationIsWord(q: char, t: string)
    requires Quote(q) && q !in t
    ensures WordOk([Quoted(q, t)]) && WordText([Quoted(q, t)]) == t
  {
    WordAppend([], Quoted(q, t));
    assert [] + [Quoted(q, t)] == [Quoted(q, t)] && WordText([]) + t == t;
  }

  lemma QuoteWordIsWord(t: string)
    ensures WordOk(QuoteWord(t)) && WordText(QuoteWord(t)) == t && QuoteWord(t) != []
  {
    hide WordOk, WordText, Mixed;
    if '\'' !in t {
      QuotationIsWord('\'', t);
    } else if '"' !in t {
      QuotationIsWord('"', t);
    } else {
      MixedIsWord(t);
    }
  }

  function QuoteWords(ts: seq<string>): (ws: seq<Word>)
    ensures |ws| == |ts|
  {
    if ts == [] then [] else QuoteWords(ts[..|ts| - 1]) + [QuoteWord(ts[|ts| - 1])]
  }

  /** The quoted strings with a space between any two. */
  function QuoteAll(ts: seq<string>): string {
    Join(QuoteWords(ts))
  }

  lemma WordsAppend(ws: seq<Word>, w: Word)
    requires WordsOk(ws) && w != [] && WordOk(w)
    ensures WordsOk(ws + [w]) && Texts(ws + [w]) == Texts(ws) + [WordText(w)]
  {
    hide WordOk, WordText;
    assert (ws + [w])[..|ws|] == ws;
  }

  lemma {:induction false} QuoteWordsAreWords(ts: seq<string>)
    ensures WordsOk(QuoteWords(ts)) && Texts(QuoteWords(ts)) == ts
  {
    hide QuoteWord, WordText, WordOk, WordsOk, Texts;
    if ts == [] {
      NothingIsWord();
    } else {
      var n := |ts| - 1;
      QuoteWordsAreWords(ts[..n]);
      QuoteWordIsWord(ts[n]);
      WordsAppend(QuoteWords(ts[..n]), QuoteWord(ts[n]));
      assert ts[..n] + [ts[n]] == ts;
    }
  }

  /** Every list of strings, quoted and joined with spaces, splits back into itself. */
  lemma SplitInvertsQuoteAll(ts: seq<string>)
    ensures Split(QuoteAll(ts)) == Ok(ts)
  {
    hide Split, QuoteWords, WordsOk;
    QuoteWordsAreWords(ts);
    WordsSplitBack(QuoteWords(ts));
  }
}
