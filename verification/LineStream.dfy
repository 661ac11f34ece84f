/**
 The newline-delimited JSON decoding stream of legacy/matrixhub-ai/api/ts/fetch.pb.ts.  `parse`
 stands for JSON.parse followed by `.result`; None is a throw, which errors the stream for good.
 */
module LineStream {
  import opened Prelude

  /** The index of the first newline, or the length. */
  function Break(s: string): (i: nat)
    ensures i <= |s| && (i < |s| ==> s[i] == '\n')
    ensures forall k | 0 <= k < i :: s[k] != '\n'
  {
    if s == [] || s[0] == '\n' then 0 else 1 + Break(s[1..])
  }

  /** The complete lines of a text, and what follows the last newline. */
  function Lines(s: string): seq<string> {
    if Break(s) == |s| then [] else [s[..Break(s)]] + Lines(s[Break(s) + 1..])
  }

  function Remainder(s: string): string {
    if Break(s) == |s| then s else Remainder(s[Break(s) + 1..])
  }

  function Glue(lines: seq<string>): string {
    if lines == [] then [] else lines[0] + ['\n'] + Glue(lines[1..])
  }

  lemma BreakAt(s: string, i: nat)
    requires i <= |s| && (i < |s| ==> s[i] == '\n') && forall k | 0 <= k < i :: s[k] != '\n'
    ensures Break(s) == i
  {
  }

  lemma FirstLine(s: string, i: nat)
    requires i <= |s| && (i < |s| ==> s[i] == '\n') && forall k | 0 <= k < i :: s[k] != '\n'
    ensures i < |s| ==> Lines(s) == [s[..i]] + Lines(s[i + 1..]) && Remainder(s) == Remainder(s[i + 1..])
    ensures i == |s| ==> Lines(s) == [] && Remainder(s) == s
  {
    BreakAt(s, i);
  }

  ghost predicate NewlineFree(lines: seq<string>) {
    forall k | 0 <= k < |lines| :: '\n' !in lines[k]
  }

  lemma GlueCons(line: string, rest: seq<string>)
    ensures Glue([line] + rest) == line + ['\n'] + Glue(rest)
    ensures '\n' !in line && NewlineFree(rest) ==> NewlineFree([line] + rest)
  {
    assert ([line] + rest)[1..] == rest;
  }

  lemma GlueNothing()
    ensures Glue([]) == []
  {
  }

  lemma {:induction false} GluesBack(s: string)
    ensures Glue(Lines(s)) + Remainder(s) == s
  {
    hide Lines, Remainder, Break, Glue;
    var i := Break(s);
    FirstLine(s, i);
    if i == |s| {
      GlueNothing();
    } else {
      var line, rest := s[..i], s[i + 1..];
      GluesBack(rest);
      GlueCons(line, Lines(rest));
      assert s == line + ['\n'] + rest;
      var end := ['\n'];
      assert line + end + Glue(Lines(rest)) + Remainder(rest) == line + end + (Glue(Lines(rest)) + Remainder(rest));
    }
  }

  lemma {:induction false} CutsAreClean(s: string)
    ensures '\n' !in Remainder(s) && NewlineFree(Lines(s))
  {
    var i := Break(s);
    FirstLine(s, i);
    if i == |s| {
    } else {
      assert '\n' !in s[..i];
      hide Lines, Remainder, Break;
      CutsAreClean(s[i + 1..]);
      GlueCons(s[..i], Lines(s[i + 1..]));
    }
  }

  /** Lines and Remainder cut a text into newline-free pieces that glue back to it... */
  lemma CutsGlueBack(s: string)
    ensures Glue(Lines(s)) + Remainder(s) == s
    ensures '\n' !in Remainder(s) && NewlineFree(Lines(s))
  {
    GluesBack(s);
    CutsAreClean(s);
  }

  /** ...and they are the only such cut. */
  lemma {:induction false} CutIsUnique(lines: seq<string>, rest: string)
    requires '\n' !in rest && NewlineFree(lines)
    ensures Lines(Glue(lines) + rest) == lines && Remainder(Glue(lines) + rest) == rest
  {
    hide Lines, Remainder;
    var s := Glue(lines) + rest;
    if lines == [] {
      assert s == rest;
      FirstLine(s, |s|);
    } else {
      var i := |lines[0]|;
      assert s == lines[0] + ['\n'] + (Glue(lines[1..]) + rest);
      assert s[..i] == lines[0] && s[i + 1..] == Glue(lines[1..]) + rest;
      assert forall k | 0 <= k < i :: s[k] in lines[0];
      FirstLine(s, i);
      CutIsUnique(lines[1..], rest);
    }
  }

  lemma {:induction false} GlueConcat(a: seq<string>, b: seq<string>)
    ensures Glue(a + b) == Glue(a) + Glue(b)
  {
    if a == [] {
      assert a + b == b;
    } else {
      assert (a + b)[1..] == a[1..] + b;
      GlueConcat(a[1..], b);
    }
  }

  /** Only what was left over by the text so far matters to the text to come. */
  lemma CutContinues(a: string, b: string)
    ensures Lines(a + b) == Lines(a) + Lines(Remainder(a) + b)
    ensures Remainder(a + b) == Remainder(Remainder(a) + b)
  {
    hide Lines, Remainder, Glue;
    var rest := Remainder(a) + b;
    CutsGlueBack(a);
    CutsGlueBack(rest);
    GlueConcat(Lines(a), Lines(rest));
    assert a + b == Glue(Lines(a)) + rest;
    assert a + b == Glue(Lines(a) + Lines(rest)) + Remainder(rest);
    CutIsUnique(Lines(a) + Lines(rest), Remainder(rest));
  }

  // ---------------------------------------------------------------------------------------------

  /** The entities of the lines before the first one that does not parse. */
  function Entities<T>(parse: string -> Option<T>, lines: seq<string>): seq<T> {
    if lines == [] || parse(lines[0]).None? then []
    else [parse(lines[0]).value] + Entities(parse, lines[1..])
  }

  predicate AllParse<T>(parse: string -> Option<T>, lines: seq<string>) {
    forall k | 0 <= k < |lines| :: parse(lines[k]).Some?
  }

  lemma AllParseConcat<T>(parse: string -> Option<T>, a: seq<string>, b: seq<string>)
    ensures AllParse(parse, a + b) <==> AllParse(parse, a) && AllParse(parse, b)
  {
    if AllParse(parse, a + b) {
      assert forall k | 0 <= k < |a| :: a[k] == (a + b)[k];
      assert forall k | 0 <= k < |b| :: b[k] == (a + b)[|a| + k];
    }
  }

  lemma {:induction false} EntitiesConcat<T>(parse: string -> Option<T>, a: seq<string>, b: seq<string>)
    ensures Entities(parse, a + b) == Entities(parse, a) + if AllParse(parse, a) then Entities(parse, b) else []
  {
    if a == [] {
      assert a + b == b;
    } else {
      assert (a + b)[1..] == a[1..] + b;
      EntitiesConcat(parse, a[1..], b);
      AllParseHead(parse, a);
      hide AllParse;
    }
  }

  lemma AllParseHead<T>(parse: string -> Option<T>, a: seq<string>)
    requires a != []
    ensures AllParse(parse, a) <==> parse(a[0]).Some? && AllParse(parse, a[1..])
  {
    AllParseConcat(parse, [a[0]], a[1..]);
    assert a == [a[0]] + a[1..];
    assert AllParse(parse, [a[0]]) <==> parse(a[0]).Some?;
  }

  function Concat(chunks: seq<string>): string {
    if chunks == [] then [] else Concat(chunks[..|chunks| - 1]) + chunks[|chunks| - 1]
  }

  /** controller.buf and controller.pos, and the entities enqueued so far. */
  class Decoder<T> {
    const parse: string -> Option<T>
    var buf: string
    var pos: nat
    var out: seq<T>
    var errored: bool

    /** What holds between chunks after `text` has been fed. */
    ghost predicate Fed(text: string)
      reads this
    {
      && out == Entities(parse, Lines(text))
      && (errored <==> !AllParse(parse, Lines(text)))
      && (!errored ==> buf == Remainder(text) && pos == |buf|)
    }

    constructor (parse: string -> Option<T>)
      ensures this.parse == parse && Fed("")
    {
      this.parse := parse;
      buf, pos, out, errored := "", 0, [], false;
    }

    /** The state in the middle of transform: `done` are the lines of `text` already emitted. */
    ghost predicate Scanning(text: string, done: seq<string>)
      reads this
    {
      && pos <= |buf| && '\n' !in buf[..pos] && !errored
      && Lines(text) == done + Lines(buf) && Remainder(text) == Remainder(buf)
      && AllParse(parse, done) && out == Entities(parse, done)
    }

    /** The newline branch of transform. */
    method TakeLine(ghost text: string, ghost done: seq<string>)
      requires pos < |buf| && buf[pos] == '\n' && Scanning(text, done)
      modifies this
      ensures if errored then Fed(text)
              else Scanning(text, done + [old(buf[..pos])]) && |buf| < old(|buf|)
    {
      hide Lines, Remainder, Entities, AllParse;
      var line := buf[..pos];
      LineTaken(parse, text, done, buf, pos);
      var response := parse(line);
      if response.None? {
        errored := true;
        return;
      }
      out := out + [response.value];
      buf := buf[pos + 1..];
      pos := 0;
    }

    /** transform(chunk); a stream that has thrown gets no more chunks. */
    method Transform(chunk: string, ghost text: string)
      requires Fed(text) && !errored
      modifies this
      ensures Fed(text + chunk)
    {
      hide Lines, Remainder, Entities, AllParse;
      CutContinues(text, chunk);
      CutsGlueBack(text);
      ghost var done: seq<string> := Lines(text);
      buf := buf + chunk;
      assert buf[..pos] == Remainder(text);
      while pos < |buf|
        invariant Scanning(text + chunk, done)
        decreases |buf|, |buf| - pos
      {
        if buf[pos] == '\n' {
          ghost var line := buf[..pos];
          TakeLine(text + chunk, done);
          if errored {
            return;
          }
          done := done + [line];
        } else {
          assert buf[..pos + 1] == buf[..pos] + [buf[pos]];
          pos := pos + 1;
        }
      }
      assert forall k | 0 <= k < |buf| :: buf[k] == buf[..pos][k];
      FirstLine(buf, |buf|);
      assert Lines(text + chunk) == done;
    }
  }

  /** The line in front of the newline at pos is the next one. */
  lemma LineTaken<T>(parse: string -> Option<T>, text: string, done: seq<string>, buf: string, pos: nat)
    requires pos < |buf| && buf[pos] == '\n' && '\n' !in buf[..pos]
    requires Lines(text) == done + Lines(buf) && Remainder(text) == Remainder(buf) && AllParse(parse, done)
    ensures var line, rest := buf[..pos], buf[pos + 1..];
            && Lines(text) == done + [line] + Lines(rest) && Remainder(text) == Remainder(rest)
            && if parse(line).Some?
               then
                 && AllParse(parse, done + [line])
                 && Entities(parse, done + [line]) == Entities(parse, done) + [parse(line).value]
               else !AllParse(parse, Lines(text)) && Entities(parse, Lines(text)) == Entities(parse, done)
  {
    hide Lines, Remainder, Entities, AllParse;
    var line := buf[..pos];
    assert forall k | 0 <= k < pos :: line[k] == buf[k] && line[k] in line;
    FirstLine(buf, pos);
    assert Lines(text) == done + [line] + Lines(buf[pos + 1..]);
    OneMoreLine(parse, done, line, Lines(buf[pos + 1..]));
  }

  lemma OneMoreLine<T>(parse: string -> Option<T>, done: seq<string>, line: string, rest: seq<string>)
    requires AllParse(parse, done)
    ensures if parse(line).Some?
            then
              && AllParse(parse, done + [line])
              && Entities(parse, done + [line]) == Entities(parse, done) + [parse(line).value]
            else
              && !AllParse(parse, done + [line] + rest)
              && Entities(parse, done + [line] + rest) == Entities(parse, done)
  {
    EntitiesConcat(parse, done, [line]);
    EntitiesConcat(parse, done + [line], rest);
    AllParseConcat(parse, done, [line]);
    AllParseConcat(parse, done + [line], rest);
    assert AllParse(parse, [line]) <==> parse(line).Some?;
  }

  /**
   Chunk independence: however a text is cut into chunks, the stream emits exactly the entities
   of its complete lines, in order, up to the first line that does not parse, and keeps exactly
   the unterminated remainder.
   */
  method DecodeChunks<T>(parse: string -> Option<T>, chunks: seq<string>)
    returns (out: seq<T>, errored: bool, kept: string)
    ensures out == Entities(parse, Lines(Concat(chunks)))
    ensures errored <==> !AllParse(parse, Lines(Concat(chunks)))
    ensures !errored ==> kept == Remainder(Concat(chunks)) && |out| == |Lines(Concat(chunks))|
    ensures var lines := Lines(Concat(chunks));
            && |out| <= |lines| && (forall k | 0 <= k < |out| :: parse(lines[k]) == Some(out[k]))
            && (errored ==> |out| < |lines| && parse(lines[|out|]).None?)
  {
    hide Lines, Remainder, Entities, AllParse, Concat;
    var d := new Decoder(parse);
    var i := 0;
    NoChunks(chunks);
    while i < |chunks| && !d.errored
      invariant 0 <= i <= |chunks| && d.parse == parse && d.Fed(Concat(chunks[..i])) && fresh(d)
    {
      d.Transform(chunks[i], Concat(chunks[..i]));
      NextChunk(chunks, i);
      i := i + 1;
    }
    FedSoFar(parse, chunks, i);
    if i == |chunks| {
      assert chunks[..i] == chunks;
    }
    EntityPerLine(parse, Lines(Concat(chunks)));
    out, errored, kept := d.out, d.errored, d.buf;
  }

  /** Once a line has failed to parse, later chunks change nothing. */
  lemma FedSoFar<T>(parse: string -> Option<T>, chunks: seq<string>, i: nat)
    requires i <= |chunks|
    ensures !AllParse(parse, Lines(Concat(chunks[..i]))) ==>
              && !AllParse(parse, Lines(Concat(chunks)))
              && Entities(parse, Lines(Concat(chunks))) == Entities(parse, Lines(Concat(chunks[..i])))
  {
    hide Lines, Remainder, Entities, AllParse;
    ConcatSplit(chunks, i);
    var fed, rest := Concat(chunks[..i]), Concat(chunks[i..]);
    CutContinues(fed, rest);
    EntitiesConcat(parse, Lines(fed), Lines(Remainder(fed) + rest));
    AllParseConcat(parse, Lines(fed), Lines(Remainder(fed) + rest));
  }

  lemma NoChunks(chunks: seq<string>)
    ensures Concat(chunks[..0]) == ""
  {
  }

  lemma NextChunk(chunks: seq<string>, i: nat)
    requires i < |chunks|
    ensures Concat(chunks[..i + 1]) == Concat(chunks[..i]) + chunks[i]
  {
    assert chunks[..i + 1][..i] == chunks[..i];
  }

  lemma {:induction false} ConcatSplit(chunks: seq<string>, i: nat)
    requires i <= |chunks|
    ensures Concat(chunks) == Concat(chunks[..i]) + Concat(chunks[i..])
    decreases |chunks|
  {
    var n := |chunks| - 1;
    if i == |chunks| {
      assert chunks[..i] == chunks;
    } else {
      ConcatSplit(chunks[..n], i);
      assert chunks[..n][..i] == chunks[..i] && chunks[i..][..n - i] == chunks[..n][i..];
    }
  }

  /** Each entity is what its line parses to, and they only stop short at a line that does not parse. */
  lemma {:induction false} EntityPerLine<T>(parse: string -> Option<T>, lines: seq<string>)
    ensures var es := Entities(parse, lines);
            && |es| <= |lines| && (forall k | 0 <= k < |es| :: parse(lines[k]) == Some(es[k]))
            && (|es| < |lines| ==> parse(lines[|es|]).None?)
    ensures AllParse(parse, lines) <==> |Entities(parse, lines)| == |lines|
  {
    if lines == [] {
    } else {
      EntityPerLine(parse, lines[1..]);
      AllParseHead(parse, lines);
    }
  }
}
