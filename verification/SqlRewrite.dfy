/**
 Query rewriting for PostgreSQL (qualify and rb in internal/store/store.go).  `Qualify` follows
 the regular expression match by match; `Prefixed` and the two readings of placeholders say what
 the rewriting should mean.
 */
module SqlRewrite {
  import opened Prelude
  import opened Text

  const TABLES: seq<string> := [
    "model_runtime_installations", "runtime_join_tokens", "provider_credentials",
    "email_verifications", "password_resets", "model_profiles", "usage_events",
    "audit_events", "workspaces", "sessions", "runtimes", "users"
  ]

  /** \w of the regular expression syntax. */
  predicate Word(c: char) {
    'a' <= c <= 'z' || 'A' <= c <= 'Z' || Digit(c) || c == '_'
  }

  function WordRun(s: string): (n: nat)
    ensures n <= |s| && (forall k | 0 <= k < n :: Word(s[k])) && (n < |s| ==> !Word(s[n]))
  {
    Leading(s, Word)
  }

  // ---------------------------------------------------------------------------------------------
  // regexp.ReplaceAllString for \b(t1|t2|...)\b.

  /** \b between q[i-1] and q[i]. */
  predicate Boundary(q: string, i: nat)
    requires i <= |q|
  {
    (i > 0 && Word(q[i - 1])) != (i < |q| && Word(q[i]))
  }

  predicate MatchesAt(q: string, i: nat, name: string) {
    i + |name| <= |q| && q[i..i + |name|] == name && Boundary(q, i) && Boundary(q, i + |name|)
  }

  /** The first alternative that matches at i. */
  function MatchAt(q: string, i: nat, names: seq<string>): Option<string> {
    if names == [] then None
    else if MatchesAt(q, i, names[0]) then Some(names[0])
    else MatchAt(q, i, names[1..])
  }

  lemma MatchAtFinds(q: string, i: nat, names: seq<string>)
    ensures var m := MatchAt(q, i, names);
            if m.Some? then m.value in names && MatchesAt(q, i, m.value)
            else forall name <- names :: !MatchesAt(q, i, name)
  {
  }

  /** Every match is replaced by what `expand` makes of it. */
  function Replace(q: string, i: nat, names: seq<string>, expand: string -> string): string
    requires i <= |q| && forall name <- names :: name != ""
    decreases |q| - i
  {
    if i == |q| then ""
    else
      var m := MatchAt(q, i, names);
      MatchAtFinds(q, i, names);
      if m.Some? then expand(m.value) + Replace(q, i + |m.value|, names, expand)
      else [q[i]] + Replace(q, i + 1, names, expand)
  }

  /** A character of a name in a template; `letter` says which characters beyond ASCII are letters or digits. */
  predicate NameChar(c: char, letter: char -> bool) {
    Word(c) || (c > '\U{7F}' && letter(c))
  }

  function NameRun(s: string, letter: char -> bool): (n: nat)
    ensures n <= |s| && (forall k | 0 <= k < n :: NameChar(s[k], letter)) && (n < |s| ==> !NameChar(s[n], letter))
  {
    Leading(s, c => NameChar(c, letter))
  }

  /** The name and the length of the reference that a template starts with: "$name" or "${name}". */
  function Reference(t: string, letter: char -> bool): (r: Option<(string, nat)>)
    ensures r.Some? ==> 1 < r.value.1 <= |t| && t[0] == '$'
  {
    if |t| < 2 || t[0] != '$' then None
    else
      var brace := t[1] == '{';
      var from := if brace then 2 else 1;
      var n := NameRun(t[from..], letter);
      if n == 0 || (brace && (from + n == |t| || t[from + n] != '}')) then None
      else Some((t[from..from + n], from + n + if brace then 1 else 0))
  }

  /** What comes of the front of a template, and how much of it that is: "$$" is a dollar, a group that
   exists, 0 or 1, is `sub`, another group is nothing, and a malformed reference is text. */
  function Head(t: string, sub: string, letter: char -> bool): (h: (string, nat))
    requires t != ""
    ensures 0 < h.1 <= |t|
  {
    var r := Reference(t, letter);
    if |t| > 1 && t[0] == '$' && t[1] == '$' then ("$", 2)
    else if r.None? then ([t[0]], 1)
    else (if r.value.0 in {"0", "1"} then sub else "", r.value.1)
  }

  /** regexp.Expand where both groups matched `sub`. */
  function Expand(template: string, sub: string, letter: char -> bool): string
    decreases |template|
  {
    if template == "" then ""
    else
      var h := Head(template, sub, letter);
      h.0 + Expand(template[h.1..], sub, letter)
  }

  function Template(schema: string, letter: char -> bool): string -> string {
    sub => Expand(schema + ".${1}", sub, letter)
  }

  function Qualify(pg: bool, schema: string, letter: char -> bool, q: string): string {
    TableNames();
    if !pg then q else Replace(q, 0, TABLES, Template(schema, letter))
  }

  ghost predicate WordName(name: string) {
    name != "" && !Digit(name[0]) && forall k | 0 <= k < |name| :: Word(name[k])
  }

  /** What the proofs need of the table names: words that start with no digit. */
  ghost predicate Names(names: seq<string>) {
    forall name <- names :: WordName(name)
  }

  lemma TableNames()
    ensures Names(TABLES)
  {
    FirstTables();
    OtherTables();
    hide WordName;
  }

  lemma FirstTables()
    ensures WordName("model_runtime_installations") && WordName("runtime_join_tokens")
    ensures WordName("provider_credentials") && WordName("email_verifications")
  {
  }

  lemma OtherTables()
    ensures WordName("password_resets") && WordName("model_profiles") && WordName("usage_events")
    ensures WordName("audit_events") && WordName("workspaces") && WordName("sessions")
    ensures WordName("runtimes") && WordName("users")
  {
  }

  // ---------------------------------------------------------------------------------------------
  // qualify is a map over maximal word runs.

  /** What becomes of one run: a name gets the prefix `pre` has for it, and a dot. */
  function Pre(w: string, names: seq<string>, pre: string -> string): string {
    if w in names then pre(w) + "." + w else w
  }

  function Mapped(q: string, names: seq<string>, pre: string -> string): string
    decreases |q|
  {
    if q == "" then ""
    else
      var n := WordRun(q);
      if n == 0 then [q[0]] + Mapped(q[1..], names, pre)
      else Pre(q[..n], names, pre) + Mapped(q[n..], names, pre)
  }

  /** The names among the maximal word runs, in order. */
  function Tables(q: string, names: seq<string>): seq<string>
    decreases |q|
  {
    if q == "" then []
    else
      var n := WordRun(q);
      if n == 0 then Tables(q[1..], names)
      else (if q[..n] in names then [q[..n]] else []) + Tables(q[n..], names)
  }

  /** What the schema expands to when the name is `w`. */
  function Expansion(schema: string, letter: char -> bool): string -> string {
    w => Expand(schema, w, letter)
  }

  function Always(schema: string): string -> string {
    w => schema
  }

  /** What qualify should do: every table name gets the schema in front. */
  function Prefixed(q: string, names: seq<string>, schema: string): string {
    Mapped(q, names, Always(schema))
  }

  /** i is not inside a word run. */
  predicate Cut(q: string, i: nat)
    requires i <= |q|
  {
    i == 0 || i == |q| || !Word(q[i - 1]) || !Word(q[i])
  }

  lemma NoMatchInside(q: string, i: nat, names: seq<string>)
    requires Names(names) && i < |q| && (!Cut(q, i) || !Word(q[i]))
    ensures MatchAt(q, i, names).None?
  {
    MatchAtFinds(q, i, names);
    hide MatchAt;
    forall name <- names
      ensures !MatchesAt(q, i, name)
    {
      if Cut(q, i) && i + |name| <= |q| {
        assert q[i..i + |name|][0] == q[i];
      }
    }
  }

  /** q[i..e] is a maximal run of word characters. */
  ghost predicate RunAt(q: string, i: nat, e: nat) {
    i < e <= |q| && Cut(q, i) && (forall k | i <= k < e :: Word(q[k])) && (e == |q| || !Word(q[e]))
  }

  lemma MatchesOnlyRun(q: string, i: nat, e: nat, name: string)
    requires RunAt(q, i, e) && WordName(name)
    ensures MatchesAt(q, i, name) <==> name == q[i..e]
  {
    if MatchesAt(q, i, name) {
      var f := i + |name|;
      forall k | i <= k < f
        ensures Word(q[k])
      {
        assert q[k] == name[k - i];
      }
    }
  }

  lemma MatchIsRun(q: string, i: nat, e: nat, names: seq<string>)
    requires Names(names) && RunAt(q, i, e)
    ensures MatchAt(q, i, names) == if q[i..e] in names then Some(q[i..e]) else None
  {
    assert i <= e <= |q|;
    hide MatchesAt, WordName, RunAt;
    MatchAtFinds(q, i, names);
    hide MatchAt;
    forall name <- names
      ensures MatchesAt(q, i, name) <==> name == q[i..e]
    {
      MatchesOnlyRun(q, i, e, name);
    }
  }

  lemma ReplaceStep(q: string, i: nat, names: seq<string>, expand: string -> string)
    requires Names(names) && i < |q|
    ensures var m := MatchAt(q, i, names);
            && (m.Some? ==> i + |m.value| <= |q|)
            && Replace(q, i, names, expand) ==
               if m.Some? then expand(m.value) + Replace(q, i + |m.value|, names, expand)
               else [q[i]] + Replace(q, i + 1, names, expand)
  {
    MatchAtFinds(q, i, names);
    hide MatchAt;
  }

  lemma {:induction false} CopyInside(q: string, j: nat, e: nat, names: seq<string>, expand: string -> string)
    requires Names(names) && 0 < j <= e <= |q| && forall k | j - 1 <= k < e :: Word(q[k])
    ensures Replace(q, j, names, expand) == q[j..e] + Replace(q, e, names, expand)
    decreases e - j
  {
    hide Replace, MatchAt;
    if j == e {
    } else {
      NoMatchInside(q, j, names);
      ReplaceStep(q, j, names, expand);
      hide Names, Word;
      CopyInside(q, j + 1, e, names, expand);
      assert q[j..e] == [q[j]] + q[j + 1..e];
    }
  }

  lemma ReplaceRun(q: string, i: nat, e: nat, names: seq<string>, expand: string -> string)
    requires Names(names) && RunAt(q, i, e)
    ensures Replace(q, i, names, expand) ==
            (if q[i..e] in names then expand(q[i..e]) else q[i..e]) + Replace(q, e, names, expand)
  {
    assert i < e <= |q|;
    hide Replace, MatchAt;
    MatchIsRun(q, i, e, names);
    ReplaceStep(q, i, names, expand);
    if q[i..e] !in names {
      CopyInside(q, i + 1, e, names, expand);
      hide RunAt, Names;
      assert q[i..e] == [q[i]] + q[i + 1..e];
    }
  }

  lemma MappedUnfold(q: string, i: nat, names: seq<string>, pre: string -> string) returns (e: nat)
    requires i < |q| && Cut(q, i)
    ensures i < e <= |q| && Cut(q, e)
    ensures Word(q[i]) ==>
              && RunAt(q, i, e)
              && Mapped(q[i..], names, pre) == Pre(q[i..e], names, pre) + Mapped(q[e..], names, pre)
    ensures !Word(q[i]) ==> e == i + 1 && Mapped(q[i..], names, pre) == [q[i]] + Mapped(q[e..], names, pre)
  {
    hide WordRun, Pre;
    var n := WordRun(q[i..]);
    e := if n == 0 then i + 1 else i + n;
    assert forall k | i <= k < i + n :: q[i..][k - i] == q[k];
    assert i + n < |q| ==> q[i..][n] == q[i + n];
    assert q[i..][..n] == q[i..i + n] && q[i..][n..] == q[i + n..] && q[i..][1..] == q[i + 1..];
  }

  lemma NameRunIs(s: string, n: nat, letter: char -> bool)
    requires n <= |s| && (forall k | 0 <= k < n :: NameChar(s[k], letter)) && (n < |s| ==> !NameChar(s[n], letter))
    ensures NameRun(s, letter) == n
  {
    hide NameRun, NameChar;
  }

  lemma OneReference(letter: char -> bool)
    ensures Reference("${1}", letter) == Some(("1", 4))
  {
    var t := "${1}";
    NameRunIs(t[2..], 1, letter);
    hide NameRun;
    assert t[2..3] == "1";
  }

  lemma TemplateEnd(sub: string, letter: char -> bool)
    ensures Expand(".${1}", sub, letter) == "." + sub
  {
    var t := ".${1}";
    OneReference(letter);
    assert Reference(t, letter).None?;
    hide Reference;
    assert t[1..] == "${1}" && "${1}"[4..] == "" && Expand("", sub, letter) == "";
  }

  lemma NameRunBeforeDot(s: string, from: nat, letter: char -> bool)
    requires from <= |s|
    ensures NameRun((s + ".${1}")[from..], letter) == NameRun(s[from..], letter)
  {
    var t, n := s + ".${1}", NameRun(s[from..], letter);
    assert t[from..] == s[from..] + ".${1}" && !NameChar('.', letter);
    hide NameRun, NameChar;
    NameRunIs(t[from..], n, letter);
  }

  /** What follows the schema makes no reference of it and ends none. */
  lemma ReferenceBeforeDot(schema: string, letter: char -> bool)
    requires schema != ""
    ensures Reference(schema + ".${1}", letter) == Reference(schema, letter)
  {
    hide NameRun;
    var t := schema + ".${1}";
    if |schema| > 1 && schema[0] == '$' {
      var from := if schema[1] == '{' then 2 else 1;
      NameRunBeforeDot(schema, from, letter);
      var n := NameRun(schema[from..], letter);
      assert t[1] == schema[1] && t[from..from + n] == schema[from..from + n];
      assert from + n < |schema| ==> t[from + n] == schema[from + n];
      assert from + n == |schema| ==> t[from + n] == '.';
    } else if schema == "$" {
      assert t == "$.${1}";
      NameRunIs(t[1..], 0, letter);
    }
  }

  lemma HeadBeforeDot(schema: string, sub: string, letter: char -> bool)
    requires schema != ""
    ensures Head(schema + ".${1}", sub, letter) == Head(schema, sub, letter)
  {
    ReferenceBeforeDot(schema, letter);
    hide Reference;
  }

  lemma ExpandNothing(sub: string, letter: char -> bool)
    ensures Expand("", sub, letter) == ""
  {
  }

  lemma ExpandStep(t: string, sub: string, letter: char -> bool)
    requires t != ""
    ensures var h := Head(t, sub, letter); Expand(t, sub, letter) == h.0 + Expand(t[h.1..], sub, letter)
  {
    hide Head;
  }

  /** The template is the schema's expansion, a dot, and the name. */
  lemma {:induction false} TemplateIsExpansion(schema: string, sub: string, letter: char -> bool)
    ensures Expand(schema + ".${1}", sub, letter) == Expand(schema, sub, letter) + "." + sub
    decreases |schema|
  {
    hide Head, Expand;
    var t := schema + ".${1}";
    if schema == "" {
      ExpandNothing(sub, letter);
      TemplateEnd(sub, letter);
      assert t == ".${1}";
    } else {
      HeadBeforeDot(schema, sub, letter);
      ExpandStep(schema, sub, letter);
      ExpandStep(t, sub, letter);
      var n := Head(schema, sub, letter).1;
      assert t[n..] == schema[n..] + ".${1}";
      TemplateIsExpansion(schema[n..], sub, letter);
    }
  }

  /** A name in a template: letters, digits and underscores. */
  ghost predicate NameText(name: string, letter: char -> bool) {
    && name != ""
    && forall k | 0 <= k < |name| ::
         var c := name[k];
         'a' <= c <= 'z' || 'A' <= c <= 'Z' || '0' <= c <= '9' || c == '_' || (c > '\U{7F}' && letter(c))
  }

  lemma NameTextRun(name: string, t: string, letter: char -> bool)
    requires NameText(name, letter) && (t != "" ==> !NameText(t[..1], letter))
    ensures NameRun(name + t, letter) == |name| && name[0] != '$' && name[0] != '{'
  {
    var s := name + t;
    forall k | 0 <= k < |name|
      ensures NameChar(s[k], letter)
    {
      assert s[k] == name[k];
    }
    if t != "" {
      assert s[|name|] == t[0] && t[..1] == [t[0]];
    }
    hide NameChar;
    NameRunIs(s, |name|, letter);
  }

  lemma BracedHead(name: string, t: string, sub: string, letter: char -> bool)
    requires NameText(name, letter)
    ensures Head("${" + name + "}" + t, sub, letter) == (if name in {"0", "1"} then sub else "", |name| + 3)
  {
    var s := "${" + name + "}" + t;
    assert s[2..] == name + ("}" + t) && s[2..2 + |name|] == name && s[2 + |name|] == '}';
    assert ("}" + t)[..1] == "}";
    NameTextRun(name, "}" + t, letter);
    hide NameRun, NameText;
  }

  lemma NamedHead(name: string, t: string, sub: string, letter: char -> bool)
    requires NameText(name, letter) && (t != "" ==> !NameText(t[..1], letter))
    ensures Head("$" + name + t, sub, letter) == (if name in {"0", "1"} then sub else "", |name| + 1)
  {
    var s := "$" + name + t;
    assert s[1..] == name + t && s[1..1 + |name|] == name && s[1] == name[0];
    NameTextRun(name, t, letter);
    hide NameRun, NameText;
  }

  /** How a template reads: a group is `sub` if it is one of the two there are, another name is nothing. */
  lemma TemplateReads(name: string, t: string, sub: string, letter: char -> bool)
    requires NameText(name, letter)
    ensures var group := if name == "0" || name == "1" then sub else "";
            && Expand("${" + name + "}" + t, sub, letter) == group + Expand(t, sub, letter)
            && (t == "" || !NameText(t[..1], letter) ==>
                  Expand("$" + name + t, sub, letter) == group + Expand(t, sub, letter))
    ensures Expand("$$" + t, sub, letter) == "$" + Expand(t, sub, letter)
  {
    hide Head, Expand, NameText;
    var a, b, c := "${" + name + "}" + t, "$" + name + t, "$$" + t;
    BracedHead(name, t, sub, letter);
    ExpandStep(a, sub, letter);
    assert a[|name| + 3..] == t;
    if t == "" || !NameText(t[..1], letter) {
      NamedHead(name, t, sub, letter);
      ExpandStep(b, sub, letter);
      assert b[|name| + 1..] == t;
    }
    TwoDollars(t, sub, letter);
    ExpandStep(c, sub, letter);
    assert c[2..] == t;
  }

  lemma TwoDollars(t: string, sub: string, letter: char -> bool)
    ensures Head("$$" + t, sub, letter) == ("$", 2)
  {
    hide Reference;
  }

  /** A table name counts only where no letter, digit or underscore is next to it. */
  lemma StandsAlone(q: string, i: nat, name: string)
    requires name in TABLES
    ensures MatchesAt(q, i, name) <==>
            && i + |name| <= |q| && q[i..i + |name|] == name
            && forall j | j == i - 1 || j == i + |name| ::
                 0 <= j < |q| ==>
                   !('a' <= q[j] <= 'z') && !('A' <= q[j] <= 'Z') && !('0' <= q[j] <= '9') && q[j] != '_'
  {
    TableNames();
    assert WordName(name);
    hide TABLES;
    if i + |name| <= |q| && q[i..i + |name|] == name {
      assert q[i] == name[0] && q[i + |name| - 1] == name[|name| - 1];
    }
  }

  lemma {:induction false} ReplaceIsMapped(q: string, i: nat, names: seq<string>, schema: string, letter: char -> bool)
    requires Names(names) && i <= |q| && Cut(q, i)
    ensures Replace(q, i, names, Template(schema, letter)) == Mapped(q[i..], names, Expansion(schema, letter))
    decreases |q| - i
  {
    hide Names, WordName, RunAt;
    if i == |q| {
      assert q[i..] == "";
    } else {
      hide Mapped, Replace, MatchAt;
      var e := MappedUnfold(q, i, names, Expansion(schema, letter));
      ReplaceIsMapped(q, e, names, schema, letter);
      if Word(q[i]) {
        ReplaceRun(q, i, e, names, Template(schema, letter));
        assert i < e <= |q|;
        TemplateIsExpansion(schema, q[i..e], letter);
        hide Expand;
      } else {
        NoMatchInside(q, i, names);
        ReplaceStep(q, i, names, Template(schema, letter));
      }
    }
  }

  /** Match by match, qualify is the map that gives every table name the schema's expansion and a dot. */
  lemma QualifyIsMapped(schema: string, letter: char -> bool, q: string)
    ensures Qualify(true, schema, letter, q) == Mapped(q, TABLES, Expansion(schema, letter))
    ensures Qualify(false, schema, letter, q) == q
  {
    hide Mapped, Replace, Template, Expansion, Names, TABLES;
    TableNames();
    ReplaceIsMapped(q, 0, TABLES, schema, letter);
    assert q[0..] == q;
  }

  // ---------------------------------------------------------------------------------------------
  // A text is a run of word characters, or another character, and a shorter text.

  ghost predicate WordsOnly(w: string) {
    forall k | 0 <= k < |w| :: Word(w[k])
  }

  ghost predicate EndsRun(t: string) {
    t == "" || !Word(t[0])
  }

  /** The leading run of word characters and the rest. */
  lemma SplitRun(q: string) returns (w: string, t: string)
    ensures q == w + t && WordsOnly(w) && EndsRun(t) && w == q[..WordRun(q)]
    ensures q != "" && Word(q[0]) ==> w != "" && |t| < |q|
  {
    w, t := q[..WordRun(q)], q[WordRun(q)..];
  }

  lemma WordRunIs(w: string, t: string)
    requires WordsOnly(w) && EndsRun(t)
    ensures WordRun(w + t) == |w|
  {
    assert forall k | 0 <= k < |w| :: (w + t)[k] == w[k];
    assert t != "" ==> (w + t)[|w|] == t[0];
    hide WordRun, Word;
  }

  lemma MappedNothing(names: seq<string>, pre: string -> string)
    ensures Mapped("", names, pre) == "" && Tables("", names) == []
  {
  }

  lemma MappedRun(w: string, t: string, names: seq<string>, pre: string -> string)
    requires WordsOnly(w) && EndsRun(t) && Names(names)
    ensures Mapped(w + t, names, pre) == Pre(w, names, pre) + Mapped(t, names, pre)
    ensures Tables(w + t, names) == (if w in names then [w] else []) + Tables(t, names)
  {
    WordRunIs(w, t);
    hide WordRun, WordsOnly, EndsRun;
    var q := w + t;
    if w == "" {
      assert q == t && "" !in names;
    } else {
      assert q[..|w|] == w && q[|w|..] == t;
      hide Names, Pre;
    }
  }

  lemma MappedOther(c: char, t: string, names: seq<string>, pre: string -> string)
    requires !Word(c)
    ensures Mapped([c] + t, names, pre) == [c] + Mapped(t, names, pre)
    ensures Tables([c] + t, names) == Tables(t, names)
  {
    assert ([c] + t)[1..] == t;
    hide Pre;
  }
}
