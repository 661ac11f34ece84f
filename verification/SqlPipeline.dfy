/**
 The two rewrites together, as exec, query and queryRow apply them: rb after qualify
 (internal/store/store.go).  When do they commute, and when does the pair keep every argument
 bound to the placeholder it was written for?  `pre` is what a table name gets in front of its dot.
 */
module SqlPipeline {
  import opened Text
  import opened SqlRewrite
  import opened SqlPlaceholders
  import opened SqlSchema

  /** The tables whose names stand directly behind one of some characters, in order. */
  function Behind(q: string, names: seq<string>, signs: set<char>): seq<string> {
    if q == "" then []
    else
      var w := q[1..][..WordRun(q[1..])];
      (if q[0] in signs && w in names then [w] else []) + Behind(q[1..], names, signs)
  }

  ghost predicate All(ts: seq<string>, good: string -> bool) {
    forall k | 0 <= k < |ts| :: good(ts[k])
  }

  lemma AllConcat(a: seq<string>, b: seq<string>, good: string -> bool)
    ensures All(a + b, good) <==> All(a, good) && All(b, good)
  {
    assert forall k | 0 <= k < |a| :: (a + b)[k] == a[k];
    assert forall k | 0 <= k < |b| :: (a + b)[|a| + k] == b[k];
  }

  lemma AllCons(given: bool, w: string, ts: seq<string>, good: string -> bool)
    ensures All((if given then [w] else []) + ts, good) <==> (given ==> good(w)) && All(ts, good)
  {
    AllConcat(if given then [w] else [], ts, good);
    assert given ==> (All([w], good) <==> good([w][0]));
  }

  lemma NothingBehind(names: seq<string>, signs: set<char>)
    ensures Behind("", names, signs) == []
  {
  }

  lemma {:induction false} BehindRun(w: string, t: string, names: seq<string>, signs: set<char>)
    requires WordsOnly(w) && forall c <- signs :: !Word(c)
    ensures Behind(w + t, names, signs) == Behind(t, names, signs)
  {
    if w == "" {
      assert w + t == t;
    } else {
      assert (w + t)[1..] == w[1..] + t && Word(w[0]);
      hide WordRun, Word;
      BehindRun(w[1..], t, names, signs);
    }
  }

  lemma BehindSign(c: char, w: string, t: string, names: seq<string>, signs: set<char>)
    requires WordsOnly(w) && EndsRun(t) && forall c <- signs :: !Word(c)
    ensures Behind([c] + (w + t), names, signs) ==
            (if c in signs && w in names then [w] else []) + Behind(t, names, signs)
  {
    var q := [c] + (w + t);
    assert q[1..] == w + t;
    WordRunIs(w, t);
    hide WordRun;
    assert (w + t)[..|w|] == w;
    BehindRun(w, t, names, signs);
    hide WordsOnly, EndsRun, Word;
  }

  lemma BehindOther(c: char, t: string, names: seq<string>, signs: set<char>)
    requires c !in signs
    ensures Behind([c] + t, names, signs) == Behind(t, names, signs)
  {
    hide WordRun;
    assert ([c] + t)[1..] == t;
  }

  ghost predicate NoTableAfter(q: string, names: seq<string>, signs: set<char>) {
    forall i | 0 <= i < |q| && q[i] in signs :: q[i + 1..][..WordRun(q[i + 1..])] !in names
  }

  lemma NoTableAfterTail(c: char, t: string, names: seq<string>, signs: set<char>)
    ensures NoTableAfter([c] + t, names, signs) <==>
            (c in signs ==> t[..WordRun(t)] !in names) && NoTableAfter(t, names, signs)
  {
    hide WordRun;
    var q := [c] + t;
    assert forall i | 0 <= i <= |t| :: q[i + 1..] == t[i..];
    assert q[0] == c && t[0..] == t && forall i | 0 <= i < |t| :: q[i + 1] == t[i];
    if NoTableAfter(q, names, signs) {
      forall i | 0 <= i < |t| && t[i] in signs
        ensures t[i + 1..][..WordRun(t[i + 1..])] !in names
      {
        assert q[i + 1] in signs && q[i + 1 + 1..] == t[i + 1..];
      }
      assert c in signs ==> q[0 + 1..] == t;
    }
    if (c in signs ==> t[..WordRun(t)] !in names) && NoTableAfter(t, names, signs) {
      forall i | 0 <= i < |q| && q[i] in signs
        ensures q[i + 1..][..WordRun(q[i + 1..])] !in names
      {
        assert i > 0 ==> t[i - 1] in signs && q[i + 1..] == t[i - 1 + 1..];
      }
    }
  }

  /** No table is behind a sign, said of the positions in the text. */
  lemma {:induction false} BehindMeans(q: string, names: seq<string>, signs: set<char>)
    ensures Behind(q, names, signs) == [] <==> NoTableAfter(q, names, signs)
  {
    if q == "" {
    } else {
      hide WordRun, NoTableAfter;
      BehindMeans(q[1..], names, signs);
      NoTableAfterTail(q[0], q[1..], names, signs);
      assert q == [q[0]] + q[1..];
    }
  }

  // ---------------------------------------------------------------------------------------------
  // Both orders of rewriting.

  lemma {:induction false} NumberedConcat(a: string, b: string, n: nat)
    ensures Numbered(a + b, n) == Numbered(a, n) + Numbered(b, n + Marks(a))
  {
    if a == "" {
      assert a + b == b;
    } else {
      assert (a + b)[1..] == a[1..] + b;
      hide Itoa;
      NumberedConcat(a[1..], b, if a[0] == '?' then n + 1 else n);
    }
  }

  lemma {:induction false} NumberedGrows(s: string, n: nat)
    ensures |Numbered(s, n)| >= |s| && '?' !in Numbered(s, n)
    ensures '?' !in s ==> Numbered(s, n) == s
  {
    if s == "" {
    } else {
      NumberedGrows(s[1..], if s[0] == '?' then n + 1 else n);
      ItoaIsDigits(n + 1);
      hide Itoa, Numbered;
      assert s == [s[0]] + s[1..];
      NumberedStep(s, n);
    }
  }

  lemma NumberedStep(s: string, n: nat)
    requires s != ""
    ensures Numbered(s, n) == if s[0] == '?' then "$" + Itoa(n + 1) + Numbered(s[1..], n + 1)
                              else [s[0]] + Numbered(s[1..], n)
  {
    hide Itoa;
  }

  lemma {:induction false} ItoaMonotone(m: nat, n: nat)
    requires m <= n
    ensures |Itoa(m)| <= |Itoa(n)|
  {
    if m < 10 {
    } else {
      ItoaMonotone(m / 10, n / 10);
    }
  }

  lemma NumberedEndsRun(t: string, n: nat)
    requires EndsRun(t)
    ensures EndsRun(Numbered(t, n))
  {
    hide Itoa;
  }

  /** A number with a word run behind it is a word run that no table is called. */
  lemma NumberIsNoName(k: nat, w: string, names: seq<string>)
    requires WordsOnly(w) && Names(names)
    ensures WordsOnly(Itoa(k) + w) && Itoa(k) + w !in names
  {
    var s := Itoa(k);
    hide Itoa;
    assert Digit((s + w)[0]);
  }

  function Unmarked(pre: string -> string): string -> bool {
    w => '?' !in pre(w)
  }

  /**
   Qualifying first and numbering on from m, against numbering on from n first.  Only the second can
   leave a "?" in the text; without one, the first is longer by the tables directly behind a "?".
   */
  ghost predicate Commutes(q: string, m: nat, n: nat, names: seq<string>, pre: string -> string) {
    var a, b := Numbered(Mapped(q, names, pre), m), Mapped(Numbered(q, n), names, pre);
    var glued, unmarked := Behind(q, names, {'?'}), All(Tables(q, names), Unmarked(pre));
    && ('?' !in b ==> |a| >= |b| + |glued| && (m == n && glued == [] ==> a == b))
    && ('?' in b ==> !unmarked)
    && (glued == [] && '?' !in b ==> unmarked)
  }

  lemma CommutesWords(w: string, t: string, m: nat, n: nat, names: seq<string>, pre: string -> string)
    requires Names(names) && WordsOnly(w) && EndsRun(t) && Commutes(t, m, n, names, pre)
    ensures Commutes(w + t, m, n, names, pre)
  {
    hide Mapped, Numbered, Behind, Tables, All, Names;
    assert '?' !in w && !Word('?');
    MappedRun(w, t, names, pre);
    NumberedPlain(w, t, n);
    NumberedEndsRun(t, n);
    MappedRun(w, Numbered(t, n), names, pre);
    BehindRun(w, t, names, {'?'});
    AllCons(w in names, w, Tables(t, names), Unmarked(pre));
    hide WordsOnly, EndsRun, Word;
    if '?' !in Pre(w, names, pre) {
      NumberedPlain(Pre(w, names, pre), Mapped(t, names, pre), m);
    }
  }

  lemma CommutesOther(c: char, t: string, m: nat, n: nat, names: seq<string>, pre: string -> string)
    requires !Word(c) && c != '?' && Commutes(t, m, n, names, pre)
    ensures Commutes([c] + t, m, n, names, pre)
  {
    hide Mapped, Numbered, Behind, Tables, All, Word;
    MappedOther(c, t, names, pre);
    MappedOther(c, Numbered(t, n), names, pre);
    NumberedPlain([c], t, n);
    NumberedPlain([c], Mapped(t, names, pre), m);
    BehindOther(c, t, names, {'?'});
  }

  lemma QualifiedFirst(w: string, t: string, m: nat, names: seq<string>, pre: string -> string)
    requires Names(names) && WordsOnly(w) && EndsRun(t)
    ensures var p := Pre(w, names, pre);
            Numbered(Mapped("?" + (w + t), names, pre), m) ==
            "$" + Itoa(m + 1) + (Numbered(p, m + 1) + Numbered(Mapped(t, names, pre), m + 1 + Marks(p)))
  {
    hide Mapped, Numbered, Pre, Itoa, Marks, WordsOnly, EndsRun, Names;
    MappedOther('?', w + t, names, pre);
    MappedRun(w, t, names, pre);
    NumberedMark(Pre(w, names, pre) + Mapped(t, names, pre), m);
    NumberedConcat(Pre(w, names, pre), Mapped(t, names, pre), m + 1);
  }

  lemma NumberedFirstRun(w: string, t: string, n: nat, names: seq<string>, pre: string -> string)
    requires Names(names) && WordsOnly(w) && EndsRun(t)
    ensures Mapped(Numbered("?" + (w + t), n), names, pre) ==
            "$" + Itoa(n + 1) + w + Mapped(Numbered(t, n + 1), names, pre)
  {
    hide Mapped, Numbered, Itoa;
    assert '?' !in w;
    NumberedMark(w + t, n);
    NumberedPlain(w, t, n + 1);
    NumberedEndsRun(t, n + 1);
    NumberIsNoName(n + 1, w, names);
    hide Names, WordsOnly, EndsRun, Word;
    var k, x := Itoa(n + 1) + w, Numbered(t, n + 1);
    assert "$" + Itoa(n + 1) + (w + x) == ['$'] + (k + x);
    DollarIsNoWord();
    MappedOther('$', k + x, names, pre);
    MappedRun(k, x, names, pre);
  }

  lemma DollarIsNoWord()
    ensures !Word('$') && !Word('?')
  {
  }

  lemma CommutesMark(w: string, t: string, m: nat, n: nat, names: seq<string>, pre: string -> string)
    requires Names(names) && WordsOnly(w) && EndsRun(t) && n <= m
    requires Commutes(t, m + 1 + Marks(Pre(w, names, pre)), n + 1, names, pre)
    ensures Commutes("?" + (w + t), m, n, names, pre)
  {
    hide Mapped, Numbered, Behind, Tables, All, Itoa, Marks;
    var p := Pre(w, names, pre);
    DollarIsNoWord();
    assert '?' !in w;
    QualifiedFirst(w, t, m, names, pre);
    NumberedFirstRun(w, t, n, names, pre);
    BehindSign('?', w, t, names, {'?'});
    MappedOther('?', w + t, names, pre);
    MappedRun(w, t, names, pre);
    AllCons(w in names, w, Tables(t, names), Unmarked(pre));
    hide Names, WordsOnly, EndsRun, Word;
    ItoaMonotone(n + 1, m + 1);
    ItoaHasNoMark(n + 1);
    NumberedGrows(p, m + 1);
    NoMarks(w);
  }

  lemma ItoaHasNoMark(n: nat)
    ensures '?' !in Itoa(n)
  {
    ItoaIsDigits(n);
    hide Itoa;
  }

  lemma {:induction false} CommutesAll(q: string, m: nat, n: nat, names: seq<string>, pre: string -> string)
    requires Names(names) && n <= m
    ensures Commutes(q, m, n, names, pre)
    decreases |q|
  {
    hide Commutes, Names, Pre, Marks, EndsRun, WordsOnly;
    if q == "" {
      NothingCommutes(m, n, names, pre);
    } else if q[0] == '?' {
      var w, t := SplitRun(q[1..]);
      assert q == "?" + (w + t);
      CommutesAll(t, m + 1 + Marks(Pre(w, names, pre)), n + 1, names, pre);
      CommutesMark(w, t, m, n, names, pre);
    } else if Word(q[0]) {
      var w, t := SplitRun(q);
      CommutesAll(t, m, n, names, pre);
      CommutesWords(w, t, m, n, names, pre);
    } else {
      CommutesAll(q[1..], m, n, names, pre);
      assert q == [q[0]] + q[1..];
      CommutesOther(q[0], q[1..], m, n, names, pre);
    }
  }

  lemma NothingCommutes(m: nat, n: nat, names: seq<string>, pre: string -> string)
    ensures Commutes("", m, n, names, pre)
  {
    MappedNothing(names, pre);
    NothingBehind(names, {'?'});
    NumberedNothing(m, false);
    NumberedNothing(n, false);
    hide Mapped, Tables, Behind, Numbered;
  }

  /** The orders agree exactly when no table is behind a "?" and no table gets a "?" in front. */
  lemma CommutesExactly(q: string, n: nat, names: seq<string>, pre: string -> string)
    requires Names(names)
    ensures Numbered(Mapped(q, names, pre), n) == Mapped(Numbered(q, n), names, pre) <==>
            Behind(q, names, {'?'}) == [] && All(Tables(q, names), Unmarked(pre))
  {
    hide Mapped, Numbered, Behind, Tables, All, Names;
    CommutesAll(q, n, n, names, pre);
    NumberedGrows(Mapped(q, names, pre), n);
  }

  // ---------------------------------------------------------------------------------------------
  // What qualifying does to placeholders.

  /** No placeholder is lost, and none comes in exactly when no table gets a "?" in front. */
  ghost predicate KeepsMarks(q: string, names: seq<string>, pre: string -> string) {
    var p := Mapped(q, names, pre);
    Marks(p) >= Marks(q) && (Marks(p) == Marks(q) <==> All(Tables(q, names), Unmarked(pre)))
  }

  lemma KeepsMarksRun(w: string, t: string, names: seq<string>, pre: string -> string)
    requires Names(names) && WordsOnly(w) && EndsRun(t) && KeepsMarks(t, names, pre)
    ensures KeepsMarks(w + t, names, pre)
  {
    hide Mapped, Tables, All, Marks, Names;
    assert '?' !in w;
    MappedRun(w, t, names, pre);
    hide WordsOnly, EndsRun;
    AllCons(w in names, w, Tables(t, names), Unmarked(pre));
    MarksConcat(w, t);
    MarksConcat(Pre(w, names, pre), Mapped(t, names, pre));
    NoMarks(w);
    NoMarks(Pre(w, names, pre));
  }

  lemma KeepsMarksOther(c: char, t: string, names: seq<string>, pre: string -> string)
    requires !Word(c) && KeepsMarks(t, names, pre)
    ensures KeepsMarks([c] + t, names, pre)
  {
    hide Mapped, Tables, All, Marks, Word;
    MappedOther(c, t, names, pre);
    MarksConcat([c], t);
    MarksConcat([c], Mapped(t, names, pre));
  }

  lemma {:induction false} QualifyKeepsMarks(q: string, names: seq<string>, pre: string -> string)
    requires Names(names)
    ensures KeepsMarks(q, names, pre)
    decreases |q|
  {
    hide KeepsMarks, Names, EndsRun, WordsOnly;
    if q == "" {
      NothingMarked(names, pre);
    } else if Word(q[0]) {
      var w, t := SplitRun(q);
      QualifyKeepsMarks(t, names, pre);
      KeepsMarksRun(w, t, names, pre);
    } else {
      QualifyKeepsMarks(q[1..], names, pre);
      assert q == [q[0]] + q[1..];
      KeepsMarksOther(q[0], q[1..], names, pre);
    }
  }

  lemma NothingMarked(names: seq<string>, pre: string -> string)
    ensures KeepsMarks("", names, pre)
  {
    MappedNothing(names, pre);
    hide Mapped, Tables;
  }

  /** Where a table is named: its name, and how far the reading of the text in front of it is. */
  datatype Place = Place(name: string, at: Scan)

  function Places(q: string, names: seq<string>, st: Scan): seq<Place>
    decreases |q|
  {
    if q == "" then []
    else
      var n := WordRun(q);
      if n == 0 then Places(q[1..], names, After(st, q[0]))
      else (if q[..n] in names then [Place(q[..n], st)] else []) + Places(q[n..], names, End(q[..n], st))
  }

  /** What a place gets in front of its name is safe there. */
  ghost predicate AllSafe(ps: seq<Place>, pre: string -> string) {
    forall k | 0 <= k < |ps| :: Safe(pre(ps[k].name), ps[k].at)
  }

  lemma AllSafeCons(given: bool, p: Place, ps: seq<Place>, pre: string -> string)
    ensures AllSafe((if given then [p] else []) + ps, pre) <==>
            (given ==> Safe(pre(p.name), p.at)) && AllSafe(ps, pre)
  {
    hide Safe;
    var all := (if given then [p] else []) + ps;
    var m := if given then 1 else 0;
    assert given ==> all[0] == p;
    assert forall k | 0 <= k < |ps| :: all[m + k] == ps[k];
    if AllSafe(all, pre) {
      forall k | 0 <= k < |ps|
        ensures Safe(pre(ps[k].name), ps[k].at)
      {
        assert Safe(pre(all[m + k].name), all[m + k].at);
      }
    }
  }

  lemma PlacesNothing(names: seq<string>, st: Scan)
    ensures Places("", names, st) == []
  {
  }

  lemma PlacesRun(w: string, t: string, names: seq<string>, st: Scan)
    requires w != "" && WordsOnly(w) && EndsRun(t)
    ensures Places(w + t, names, st) == (if w in names then [Place(w, st)] else []) + Places(t, names, End(w, st))
  {
    WordRunIs(w, t);
    hide WordRun, End;
    assert (w + t)[..|w|] == w && (w + t)[|w|..] == t;
  }

  lemma PlacesOther(c: char, t: string, names: seq<string>, st: Scan)
    requires !Word(c)
    ensures Places([c] + t, names, st) == Places(t, names, After(st, c))
  {
    hide After, End;
    assert ([c] + t)[1..] == t;
  }

  /** A run stays safe, and leaves the reading where it did, exactly when what is in front of a name is safe. */
  lemma SafeRun(w: string, x: string, names: seq<string>, pre: string -> string, st: Scan)
    requires Names(names) && WordsOnly(w)
    ensures w in names ==> Safe(w, st)
    ensures Safe(Pre(w, names, pre) + x, st) <==>
            (if w in names then Safe(pre(w), st) else Safe(w, st)) && Safe(x, End(w, st))
  {
    hide Safe, End;
    SafeConcat(w, x, st);
    if w in names {
      assert WordName(w);
      hide Names;
      NameIsScanned(w, st);
      var dot := "." + w;
      var p := End(pre(w), st);
      assert Pre(w, names, pre) + x == pre(w) + (dot + x) && dot == ['.'] + w;
      SafeConcat(pre(w), dot + x, st);
      SafeConcat(dot, x, p);
      SafeCons('.', w, p);
      NameIsScanned(w, After(p, '.'));
    }
  }

  lemma NameIsScanned(w: string, st: Scan)
    requires WordName(w)
    ensures Safe(w, st) && End(w, st) == Scan(true, false)
  {
    assert Word(w[0]);
    NameScan(w, st);
  }

  ghost predicate SafeAlike(q: string, names: seq<string>, pre: string -> string, st: Scan) {
    Safe(Mapped(q, names, pre), st) <==> Safe(q, st) && AllSafe(Places(q, names, st), pre)
  }

  lemma SafeAlikeRun(w: string, t: string, names: seq<string>, pre: string -> string, st: Scan)
    requires Names(names) && w != "" && WordsOnly(w) && EndsRun(t) && SafeAlike(t, names, pre, End(w, st))
    ensures SafeAlike(w + t, names, pre, st)
  {
    hide Mapped, Safe, End, Places, AllSafe, Pre;
    MappedRun(w, t, names, pre);
    PlacesRun(w, t, names, st);
    AllSafeCons(w in names, Place(w, st), Places(t, names, End(w, st)), pre);
    SafeRun(w, Mapped(t, names, pre), names, pre, st);
    SafeConcat(w, t, st);
  }

  lemma SafeAlikeOther(c: char, t: string, names: seq<string>, pre: string -> string, st: Scan)
    requires !Word(c) && SafeAlike(t, names, pre, After(st, c))
    ensures SafeAlike([c] + t, names, pre, st)
  {
    hide Mapped, Safe, End, Places, AllSafe, Word, After, Fits;
    MappedOther(c, t, names, pre);
    PlacesOther(c, t, names, st);
    SafeCons(c, t, st);
    SafeCons(c, Mapped(t, names, pre), st);
  }

  /** The qualified text is safe exactly when the text is, and whatever its tables get in front, there. */
  lemma {:induction false} MappedSafe(q: string, names: seq<string>, pre: string -> string, st: Scan)
    requires Names(names)
    ensures Safe(Mapped(q, names, pre), st) <==> Safe(q, st) && AllSafe(Places(q, names, st), pre)
    decreases |q|
  {
    hide Mapped, Safe, End, Places, AllSafe, Names, EndsRun, WordsOnly, After;
    if q == "" {
      NothingUnsafe(names, pre, st);
    } else if Word(q[0]) {
      var w, t := SplitRun(q);
      MappedSafe(t, names, pre, End(w, st));
      SafeAlikeRun(w, t, names, pre, st);
    } else {
      MappedSafe(q[1..], names, pre, After(st, q[0]));
      assert q == [q[0]] + q[1..];
      SafeAlikeOther(q[0], q[1..], names, pre, st);
    }
  }

  lemma NothingUnsafe(names: seq<string>, pre: string -> string, st: Scan)
    ensures SafeAlike("", names, pre, st)
  {
    MappedNothing(names, pre);
    PlacesNothing(names, st);
    hide Mapped, Places;
  }

  // ---------------------------------------------------------------------------------------------
  // The tables and the schema of the source.

  lemma HeadMarks(s: string, sub: string, letter: char -> bool)
    requires s != "" && '?' !in sub
    ensures var h := Head(s, sub, letter); '?' in h.0 <==> '?' in s[..h.1]
  {
    var r := Reference(s, letter);
    var h := Head(s, sub, letter);
    if r.Some? {
      ReferenceHasNoMark(s, letter);
    } else if h.1 == 1 {
      assert s[..1] == [s[0]];
    } else {
      assert s[..2] == ['$', '$'];
    }
  }

  lemma NameHasNoMark(s: string, n: nat, letter: char -> bool)
    requires n <= |s| && forall k | 0 <= k < n :: NameChar(s[k], letter)
    ensures '?' !in s[..n]
  {
    assert !NameChar('?', letter);
    hide NameChar;
  }

  lemma ReferenceHasNoMark(t: string, letter: char -> bool)
    requires Reference(t, letter).Some?
    ensures '?' !in t[..Reference(t, letter).value.1]
  {
    var from := if t[1] == '{' then 2 else 1;
    var n := NameRun(t[from..], letter);
    NameHasNoMark(t[from..], n, letter);
    hide NameRun;
    var length := Reference(t, letter).value.1;
    assert t[..length] == t[..from] + t[from..][..n] + t[from + n..length];
    assert t[..from] == if from == 1 then ['$'] else ['$', '{'];
    assert t[from + n..length] == if from == 1 then [] else ['}'];
  }

  /** Expanding neither makes nor loses a "?". */
  lemma {:induction false} ExpandMarks(s: string, sub: string, letter: char -> bool)
    requires '?' !in sub
    ensures '?' in Expand(s, sub, letter) <==> '?' in s
    decreases |s|
  {
    hide Head, Expand;
    if s == "" {
      ExpandNothing(sub, letter);
    } else {
      HeadMarks(s, sub, letter);
      ExpandStep(s, sub, letter);
      var h := Head(s, sub, letter);
      ExpandMarks(s[h.1..], sub, letter);
      assert s == s[..h.1] + s[h.1..];
    }
  }

  lemma {:induction false} TablesAreNames(q: string, names: seq<string>)
    ensures forall k | 0 <= k < |Tables(q, names)| :: Tables(q, names)[k] in names
    decreases |q|
  {
    hide WordRun;
    if q == "" {
    } else if WordRun(q) == 0 {
      TablesAreNames(q[1..], names);
    } else {
      TablesAreNames(q[WordRun(q)..], names);
    }
  }

  lemma AllSame(ts: seq<string>, good: string -> bool, same: bool)
    requires forall k | 0 <= k < |ts| :: good(ts[k]) == same
    ensures All(ts, good) <==> ts == [] || same
  {
    assert ts != [] ==> good(ts[0]) == same;
  }

  /** Tables get a "?" in front exactly when the schema has one. */
  lemma SchemaMarks(q: string, names: seq<string>, schema: string, letter: char -> bool)
    requires Names(names)
    ensures All(Tables(q, names), Unmarked(Expansion(schema, letter))) <==> Tables(q, names) == [] || '?' !in schema
  {
    TablesAreNames(q, names);
    hide Tables, Expand;
    var unmarked := Unmarked(Expansion(schema, letter));
    forall w | w in names
      ensures unmarked(w) == ('?' !in schema)
    {
      assert WordName(w) && '?' !in w;
      ExpandMarks(schema, w, letter);
    }
    hide All, Names;
    AllSame(Tables(q, names), unmarked, '?' !in schema);
  }

  /**
   qualify and rb commute, for every schema and text, exactly when no placeholder is directly
   followed by a table name and, if there is any table, the schema has no "?".
   */
  lemma QualifyCommutesWithRb(schema: string, letter: char -> bool, q: string)
    ensures Numbered(Qualify(true, schema, letter, q), 0) == Qualify(true, schema, letter, Numbered(q, 0)) <==>
            NoTableAfter(q, TABLES, {'?'}) && (Tables(q, TABLES) == [] || '?' !in schema)
  {
    hide *;
    TableNames();
    QualifyIsMapped(schema, letter, q);
    QualifyIsMapped(schema, letter, Numbered(q, 0));
    CommutesExactly(q, 0, TABLES, Expansion(schema, letter));
    SchemaMarks(q, TABLES, schema, letter);
    BehindMeans(q, TABLES, {'?'});
  }

  lemma UsersIsTable()
    ensures "users" in TABLES && WordsOnly("users") && EndsRun("")
  {
    assert TABLES[11] == "users";
  }

  lemma SExpands(sub: string, letter: char -> bool)
    ensures Expand("s", sub, letter) == "s"
  {
    assert Reference("s", letter).None?;
    ExpandStep("s", sub, letter);
    ExpandNothing(sub, letter);
    hide Expand;
    assert "s"[1..] == "";
  }

  lemma UsersGetsSchema(letter: char -> bool)
    ensures Pre("users", TABLES, Expansion("s", letter)) == "s.users"
    ensures Numbered("s.users", 1) == "s.users" && Marks("s.users") == 0
  {
    hide Expand, TABLES, Numbered, Marks;
    UsersIsTable();
    SExpands("users", letter);
    NumberedPlain("s.users", "", 1);
    NumberedNothing(1, false);
    NoMarks("s.users");
    assert "s.users" + "" == "s.users";
  }

  lemma QualifiedThenNumbered(letter: char -> bool)
    ensures Numbered(Mapped("?users", TABLES, Expansion("s", letter)), 0) == "$1s.users"
  {
    hide *;
    var pre := Expansion("s", letter);
    TableNames();
    UsersIsTable();
    UsersGetsSchema(letter);
    QualifiedFirst("users", "", 0, TABLES, pre);
    MappedNothing(TABLES, pre);
    NumberedNothing(1, false);
    ItoaOne();
    assert "?users" == "?" + ("users" + "");
    assert "$" + "1" + ("s.users" + "") == "$1s.users";
  }

  lemma NumberedThenQualified(pre: string -> string)
    ensures Mapped(Numbered("?users", 0), TABLES, pre) == "$1users"
  {
    hide Mapped, Numbered, TABLES, Names, Itoa, WordsOnly, EndsRun;
    TableNames();
    UsersIsTable();
    NumberedFirstRun("users", "", 0, TABLES, pre);
    MappedNothing(TABLES, pre);
    NumberedNothing(1, false);
    ItoaOne();
    assert "?users" == "?" + ("users" + "");
    assert "$" + "1" + "users" + "" == "$1users";
  }

  lemma ItoaOne()
    ensures Itoa(1) == "1"
  {
  }

  /** The failing input: numbered first, the table behind the placeholder is none any more. */
  lemma TableBehindMark(letter: char -> bool)
    ensures Numbered(Qualify(true, "s", letter, "?users"), 0) == "$1s.users"
    ensures Qualify(true, "s", letter, Numbered("?users", 0)) == "$1users"
  {
    hide *;
    QualifyIsMapped("s", letter, "?users");
    QualifyIsMapped("s", letter, Numbered("?users", 0));
    QualifiedThenNumbered(letter);
    NumberedThenQualified(Expansion("s", letter));
  }

  /**
   When what exec sends binds the arguments of the statement as written: the statement is safe, no
   table gets a "?" in front, and what each table gets is safe where it is named.
   */
  ghost predicate Bindable(schema: string, letter: char -> bool, q: string) {
    && Safe(q, OUTSIDE)
    && (Tables(q, TABLES) == [] || '?' !in schema)
    && AllSafe(Places(q, TABLES, OUTSIDE), Expansion(schema, letter))
  }

  /** p and what rb makes of it have the placeholders of q, read by position and by number alike. */
  ghost predicate Binds(p: string, q: string) {
    && ByNumber(Numbered(p, 0), false) == ByPosition(p, 0)
    && Params(ByPosition(p, 0)) == Params(ByPosition(q, 0))
  }

  lemma RewriteBindsNames(q: string, names: seq<string>, pre: string -> string)
    requires Names(names)
    ensures Binds(Mapped(q, names, pre), q) <==>
            && Safe(q, OUTSIDE) && AllSafe(Places(q, names, OUTSIDE), pre)
            && All(Tables(q, names), Unmarked(pre))
  {
    hide Names, Mapped, Tables, Places, Safe, AllSafe, All, Params, ByNumber, ByPosition, Numbered, Marks;
    QualifyKeepsMarks(q, names, pre);
    MappedSafe(q, names, pre, OUTSIDE);
    BindingPreserved(Mapped(q, names, pre));
    ParamsByPosition(Mapped(q, names, pre), 0);
    ParamsByPosition(q, 0);
  }

  /**
   The statement exec sends reads by number as the qualified statement reads by position, and that
   has the placeholders of the statement as written, exactly when it is bindable, for every schema
   and text.
   */
  lemma RewriteBinds(schema: string, letter: char -> bool, q: string)
    ensures Binds(Qualify(true, schema, letter, q), q) <==> Bindable(schema, letter, q)
  {
    hide Qualify, Mapped, Tables, Places, Safe, AllSafe, All, Binds, TABLES, Names;
    TableNames();
    RewriteBindsNames(q, TABLES, Expansion(schema, letter));
    QualifyIsMapped(schema, letter, q);
    SchemaMarks(q, TABLES, schema, letter);
  }

  /** Some table is directly behind a "?", or behind a "$" that begins a parameter. */
  ghost predicate OpenPlace(ps: seq<Place>) {
    exists k :: 0 <= k < |ps| && ps[k].at.open
  }

  lemma DigitRefers(t: string, letter: char -> bool)
    requires |t| > 1 && t[0] == '$'
    ensures Digit(t[1]) ==> Refers(t, letter)
  {
    assert Digit(t[1]) ==> NameChar(t[1..][0], letter);
    hide NameChar;
    assert Digit(t[1]) ==> NameRun(t[1..], letter) > 0;
  }

  /** Without a "?" and a reference in it, a schema is unsafe only for a digit at its front. */
  lemma {:induction false} PlainIsSafe(schema: string, letter: char -> bool, st: Scan)
    requires NoReference(schema, letter) && '?' !in schema
    ensures Safe(schema, st) <==> !(st.open && DigitFirst(schema))
  {
    hide Safe, NoReference, Refers;
    if schema == "" {
      SafeNothing(st);
    } else {
      var c, t := schema[0], schema[1..];
      assert schema == [c] + t;
      NoReferenceTail(schema, letter);
      SafeCons(c, t, st);
      PlainIsSafe(t, letter, After(st, c));
      if c == '$' && t != "" {
        DigitRefers(schema, letter);
        assert schema[1] == t[0];
      }
    }
  }

  lemma NameExpandsToSchema(schema: string, letter: char -> bool, w: string)
    requires NoReference(schema, letter) && WordName(w)
    ensures Expand(schema, w, letter) == schema
  {
    hide Expand, NoReference;
    NameHasNoDollar(w);
    ExpandDollars(schema, w, letter);
  }

  lemma {:induction false} PlacesAreTables(q: string, names: seq<string>, st: Scan)
    ensures |Places(q, names, st)| == |Tables(q, names)|
    ensures forall k | 0 <= k < |Places(q, names, st)| :: Places(q, names, st)[k].name in names
    decreases |q|
  {
    hide WordRun, End, After;
    if q == "" {
    } else if WordRun(q) == 0 {
      PlacesAreTables(q[1..], names, After(st, q[0]));
    } else {
      PlacesAreTables(q[WordRun(q)..], names, End(q[..WordRun(q)], st));
    }
  }

  lemma PlainPlaces(ps: seq<Place>, names: seq<string>, schema: string, letter: char -> bool)
    requires Names(names) && forall k | 0 <= k < |ps| :: ps[k].name in names
    requires NoReference(schema, letter) && (ps == [] || '?' !in schema)
    ensures AllSafe(ps, Expansion(schema, letter)) <==> !OpenPlace(ps) || !DigitFirst(schema)
  {
    hide Safe, NoReference, DigitFirst, Expand;
    forall k | 0 <= k < |ps|
      ensures Safe(Expansion(schema, letter)(ps[k].name), ps[k].at) <==> !(ps[k].at.open && DigitFirst(schema))
    {
      assert WordName(ps[k].name);
      NameExpandsToSchema(schema, letter, ps[k].name);
      PlainIsSafe(schema, letter, ps[k].at);
    }
  }

  /** For a schema without references: only a digit at its front can matter, and only where a place is open. */
  lemma PlainSchemaBinds(schema: string, letter: char -> bool, q: string)
    requires NoReference(schema, letter)
    ensures Bindable(schema, letter, q) <==>
            && Safe(q, OUTSIDE) && (Tables(q, TABLES) == [] || '?' !in schema)
            && (!OpenPlace(Places(q, TABLES, OUTSIDE)) || !DigitFirst(schema))
  {
    TableNames();
    hide Tables, Places, TABLES, Names, AllSafe, OpenPlace, Safe, NoReference, DigitFirst;
    PlacesAreTables(q, TABLES, OUTSIDE);
    if Tables(q, TABLES) == [] || '?' !in schema {
      PlainPlaces(Places(q, TABLES, OUTSIDE), TABLES, schema, letter);
    }
  }

  /** What exec, query and queryRow hand to the driver. */
  method Rewrite(pg: bool, schema: string, letter: char -> bool, q: string) returns (r: string)
    ensures !pg ==> r == q
    ensures pg ==> r == Numbered(Qualify(true, schema, letter, q), 0)
    ensures pg ==> (Binds(Qualify(true, schema, letter, q), q) <==> Bindable(schema, letter, q))
    ensures pg && Bindable(schema, letter, q) ==> Params(ByNumber(r, false)) == Params(ByPosition(q, 0))
  {
    r := Rb(pg, Qualify(pg, schema, letter, q));
    hide Qualify, Bindable, ByNumber, ByPosition, Numbered, Params;
    if pg {
      RewriteBinds(schema, letter, q);
    } else {
      QualifyIsMapped(schema, letter, q);
    }
  }
}
