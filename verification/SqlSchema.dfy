/**
 Which schemas qualify puts in front of table names as they are written: the replacement is a
 template of the regexp package, which expands "$" (internal/store/store.go).
 */
module SqlSchema {
  import opened SqlRewrite

  /** The text starts with "$$", "$name" or "${name}". */
  predicate Refers(t: string, letter: char -> bool) {
    |t| > 1 && t[0] == '$' && (t[1] == '$' || Reference(t, letter).Some?)
  }

  /** Nothing in the schema is a reference. */
  ghost predicate NoReference(schema: string, letter: char -> bool) {
    forall i | 0 <= i < |schema| :: !Refers(schema[i..], letter)
  }

  lemma NoReferenceTail(s: string, letter: char -> bool)
    requires s != ""
    ensures NoReference(s, letter) <==> !Refers(s, letter) && NoReference(s[1..], letter)
  {
    hide Refers;
    assert s[0..] == s;
    forall i | 0 <= i < |s| - 1
      ensures s[1..][i..] == s[i + 1..]
    {
    }
    if NoReference(s, letter) {
      forall i | 0 <= i < |s[1..]|
        ensures !Refers(s[1..][i..], letter)
      {
        assert !Refers(s[i + 1..], letter);
      }
    }
    if !Refers(s, letter) && NoReference(s[1..], letter) {
      forall i | 0 <= i < |s|
        ensures !Refers(s[i..], letter)
      {
        if i > 0 {
          assert s[1..][i - 1..] == s[i..];
        }
      }
    }
  }

  function Dollars(s: string): nat {
    if s == "" then 0 else (if s[0] == '$' then 1 else 0) + Dollars(s[1..])
  }

  lemma {:induction false} DollarsConcat(a: string, b: string)
    ensures Dollars(a + b) == Dollars(a) + Dollars(b)
  {
    if a == "" {
      assert a + b == b;
    } else {
      assert (a + b)[1..] == a[1..] + b;
      DollarsConcat(a[1..], b);
    }
  }

  lemma {:induction false} NoDollars(s: string)
    ensures Dollars(s) == 0 <==> '$' !in s
  {
    if s == "" {
    } else {
      NoDollars(s[1..]);
      assert '$' in s <==> s[0] == '$' || '$' in s[1..];
    }
  }

  lemma DollarsHead(s: string, sub: string, letter: char -> bool)
    requires s != "" && '$' !in sub
    ensures var h := Head(s, sub, letter);
            if Refers(s, letter) then Dollars(h.0) < Dollars(s[..h.1]) else h == ([s[0]], 1)
  {
    NoDollars(sub);
    hide Reference;
    var h := Head(s, sub, letter);
    assert s[..h.1][0] == s[0];
    assert h.1 > 1 ==> s[..h.1][1..][0] == s[1];
  }

  /** An expansion has fewer dollars than its schema, unless there is no reference and nothing changes. */
  lemma {:induction false} ExpandDollars(s: string, sub: string, letter: char -> bool)
    requires '$' !in sub
    ensures Dollars(Expand(s, sub, letter)) <= Dollars(s)
    ensures if NoReference(s, letter) then Expand(s, sub, letter) == s else Dollars(Expand(s, sub, letter)) < Dollars(s)
    decreases |s|
  {
    hide Head, Expand, NoReference, Refers;
    if s == "" {
      ExpandNothing(sub, letter);
      NothingRefers(letter);
    } else {
      DollarsHead(s, sub, letter);
      ExpandStep(s, sub, letter);
      NoReferenceTail(s, letter);
      var h := Head(s, sub, letter);
      ExpandDollars(s[h.1..], sub, letter);
      hide Dollars;
      assert s == s[..h.1] + s[h.1..];
      DollarsConcat(s[..h.1], s[h.1..]);
      DollarsConcat(h.0, Expand(s[h.1..], sub, letter));
      assert h.1 == 1 ==> [s[0]] == s[..1];
    }
  }

  lemma NothingRefers(letter: char -> bool)
    ensures NoReference("", letter)
  {
  }

  lemma NameHasNoDollar(name: string)
    requires WordName(name)
    ensures '$' !in name
  {
  }

  /** What qualify makes of a text against what it should make of it. */
  ghost predicate Faithful(q: string, names: seq<string>, schema: string, letter: char -> bool) {
    var a, b := Mapped(q, names, Expansion(schema, letter)), Prefixed(q, names, schema);
    && Dollars(a) <= Dollars(b)
    && if NoReference(schema, letter) || Tables(q, names) == [] then a == b else Dollars(a) < Dollars(b)
  }

  /** What a run becomes and what it should become. */
  lemma PreDollars(w: string, names: seq<string>, schema: string, letter: char -> bool)
    requires w in names ==> WordName(w)
    ensures var a, b := Pre(w, names, Expansion(schema, letter)), Pre(w, names, Always(schema));
            && Dollars(a) <= Dollars(b)
            && if NoReference(schema, letter) || w !in names then a == b else Dollars(a) < Dollars(b)
  {
    hide Expand, NoReference, Dollars;
    if w in names {
      NameHasNoDollar(w);
      hide WordName;
      ExpandDollars(schema, w, letter);
      var e, end := Expand(schema, w, letter), "." + w;
      DollarsConcat(e, end);
      DollarsConcat(schema, end);
      assert e + "." + w == e + end && schema + "." + w == schema + end;
    }
  }

  lemma FaithfulRun(w: string, t: string, names: seq<string>, schema: string, letter: char -> bool)
    requires Names(names) && WordsOnly(w) && EndsRun(t) && Faithful(t, names, schema, letter)
    ensures Faithful(w + t, names, schema, letter)
  {
    hide Mapped, Tables, Expand, NoReference, WordsOnly, EndsRun, Pre, Dollars;
    MappedRun(w, t, names, Expansion(schema, letter));
    MappedRun(w, t, names, Always(schema));
    PreDollars(w, names, schema, letter);
    hide Names, WordName;
    var a, b := Pre(w, names, Expansion(schema, letter)), Pre(w, names, Always(schema));
    hide Expansion, Always;
    DollarsConcat(a, Mapped(t, names, Expansion(schema, letter)));
    DollarsConcat(b, Mapped(t, names, Always(schema)));
  }

  lemma FaithfulOther(c: char, t: string, names: seq<string>, schema: string, letter: char -> bool)
    requires !Word(c) && Faithful(t, names, schema, letter)
    ensures Faithful([c] + t, names, schema, letter)
  {
    hide Mapped, Tables, Expand, NoReference, Dollars;
    MappedOther(c, t, names, Expansion(schema, letter));
    MappedOther(c, t, names, Always(schema));
    DollarsConcat([c], Mapped(t, names, Expansion(schema, letter)));
    DollarsConcat([c], Mapped(t, names, Always(schema)));
  }

  lemma {:induction false} AllFaithful(q: string, names: seq<string>, schema: string, letter: char -> bool)
    requires Names(names)
    ensures Faithful(q, names, schema, letter)
    decreases |q|
  {
    hide Faithful, Names;
    if q == "" {
      NothingFaithful(names, schema, letter);
    } else if Word(q[0]) {
      var w, t := SplitRun(q);
      AllFaithful(t, names, schema, letter);
      FaithfulRun(w, t, names, schema, letter);
    } else {
      AllFaithful(q[1..], names, schema, letter);
      assert q == [q[0]] + q[1..];
      FaithfulOther(q[0], q[1..], names, schema, letter);
    }
  }

  lemma NothingFaithful(names: seq<string>, schema: string, letter: char -> bool)
    ensures Faithful("", names, schema, letter)
  {
    hide NoReference;
    MappedNothing(names, Expansion(schema, letter));
    MappedNothing(names, Always(schema));
  }

  /**
   qualify prefixes exactly the word runs that are table names with the schema and leaves all else
   alone, for every schema and text, exactly when nothing in the schema is a reference of the
   template syntax or the text names no table.
   */
  lemma QualifyIsPrefixed(schema: string, letter: char -> bool, q: string)
    ensures Qualify(true, schema, letter, q) == Prefixed(q, TABLES, schema) <==>
            NoReference(schema, letter) || Tables(q, TABLES) == []
  {
    hide Qualify, NoReference, Tables, Dollars, Mapped, TABLES, Names;
    QualifyIsMapped(schema, letter, q);
    TableNames();
    AllFaithful(q, TABLES, schema, letter);
  }

  /** Such a schema is a legal PostgreSQL name, and its end goes missing. */
  lemma DollarSchemaIsExpanded(letter: char -> bool)
    ensures Qualify(true, "my$schema", letter, "users") == "my.users"
    ensures Prefixed("users", TABLES, "my$schema") == "my$schema.users"
  {
    hide Qualify, Mapped, Expand;
    QualifyIsMapped("my$schema", letter, "users");
    TableNames();
    hide Names, WordName;
    assert "users" + "" == "users" && TABLES[11] == "users";
    MappedRun("users", "", TABLES, Expansion("my$schema", letter));
    MappedRun("users", "", TABLES, Always("my$schema"));
    MappedNothing(TABLES, Expansion("my$schema", letter));
    MappedNothing(TABLES, Always("my$schema"));
    hide TABLES;
    MySchemaExpands("users", letter);
  }

  lemma MySchemaExpands(sub: string, letter: char -> bool)
    ensures Expand("my$schema", sub, letter) == "my"
  {
    hide Head, Expand;
    var s := "my$schema";
    MySchemaHeads(sub, letter);
    ExpandStep(s, sub, letter);
    ExpandStep("y$schema", sub, letter);
    ExpandStep("$schema", sub, letter);
    ExpandNothing(sub, letter);
    assert s[1..] == "y$schema" && "y$schema"[1..] == "$schema" && "$schema"[7..] == "";
  }

  lemma MySchemaHeads(sub: string, letter: char -> bool)
    ensures Head("my$schema", sub, letter) == ("m", 1) && Head("y$schema", sub, letter) == ("y", 1)
    ensures Head("$schema", sub, letter) == ("", 7)
  {
    var t := "$schema";
    assert t[1..] == "schema";
    NameRunIs(t[1..], 6, letter);
    hide NameRun;
    assert t[1..1 + 6] == "schema";
  }
}
