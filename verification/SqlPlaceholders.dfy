/**
 Placeholders (rb in internal/store/store.go): a statement with "?" read by position against what
 rb makes of it read by number.
 */
module SqlPlaceholders {
  import opened Text

  /** Every "?" becomes "$" and its number, counting on from n. */
  function Numbered(q: string, n: nat): string {
    if q == "" then ""
    else if q[0] == '?' then "$" + Itoa(n + 1) + Numbered(q[1..], n + 1)
    else [q[0]] + Numbered(q[1..], n)
  }

  method Rb(pg: bool, q: string) returns (r: string)
    ensures r == if pg then Numbered(q, 0) else q
  {
    if !pg {
      return q;
    }
    hide Itoa;
    var n := 0;
    r := "";
    assert q[0..] == q;
    for i := 0 to |q|
      invariant Numbered(q, 0) == r + Numbered(q[i..], n)
    {
      assert q[i..][1..] == q[i + 1..];
      if q[i] == '?' {
        n := n + 1;
        r := r + "$";
        r := r + Itoa(n);
      } else {
        r := r + [q[i]];
      }
    }
  }

  /** What a statement says to the driver: characters, and parameters by number. */
  datatype Piece = Char(c: char) | Param(k: nat)

  /** Placeholders read by position, counting on from n. */
  function ByPosition(q: string, n: nat): (r: seq<Piece>)
    ensures |r| == |q|
  {
    if q == "" then []
    else if q[0] == '?' then [Param(n + 1)] + ByPosition(q[1..], n + 1)
    else [Char(q[0])] + ByPosition(q[1..], n)
  }

  function DigitRun(s: string): (d: nat)
    ensures d <= |s| && (forall k | 0 <= k < d :: Digit(s[k])) && (d < |s| ==> !Digit(s[d]))
  {
    Leading(s, Digit)
  }

  /**
   Where the reading of a statement stands: `joined` means that a "$" here would belong to what is in
   front of it, an identifier or another "$"; `open` that digits here would be part of a parameter.
   */
  datatype Scan = Scan(joined: bool, open: bool)

  const OUTSIDE := Scan(false, false)

  /** The characters an identifier of PostgreSQL can start with. */
  predicate Starts(c: char) {
    'a' <= c <= 'z' || 'A' <= c <= 'Z' || c == '_' || c >= '\U{80}'
  }

  function Join(joined: bool, c: char): bool {
    Starts(c) || c == '$' || (Digit(c) && joined)
  }

  /**
   Placeholders read by number: a "$" and the longest run of digits after it, unless the "$" is part
   of an identifier, which can contain it after the first character, or directly behind another "$".
   */
  function ByNumber(q: string, joined: bool): seq<Piece>
    decreases |q|
  {
    if q == "" then []
    else
      var d := DigitRun(q[1..]);
      if q[0] == '$' && !joined && d > 0 then [Param(Number(q[1..1 + d]))] + ByNumber(q[1 + d..], false)
      else [Char(q[0])] + ByNumber(q[1..], Join(joined, q[0]))
  }

  // ---------------------------------------------------------------------------------------------
  // When the two readings agree.

  function After(st: Scan, c: char): Scan {
    Scan(Join(st.joined, c), c == '?' || (c == '$' && !st.joined))
  }

  /** No digit where it would join a parameter, and no placeholder where its "$" would be joined. */
  predicate Fits(st: Scan, c: char) {
    !(st.open && Digit(c)) && !(st.joined && c == '?')
  }

  /**
   No "?" stands behind an identifier or a "$", and no digit behind a "?" or behind a "$" that is
   itself neither in an identifier nor behind another.
   */
  predicate Safe(q: string, st: Scan) {
    q == "" || (Fits(st, q[0]) && Safe(q[1..], After(st, q[0])))
  }

  function End(q: string, st: Scan): Scan {
    if q == "" then st else End(q[1..], After(st, q[0]))
  }

  lemma SafeCons(c: char, t: string, st: Scan)
    ensures Safe([c] + t, st) <==> Fits(st, c) && Safe(t, After(st, c))
    ensures End([c] + t, st) == End(t, After(st, c))
  {
    assert ([c] + t)[1..] == t;
    hide Fits, After;
  }

  lemma SafeNothing(st: Scan)
    ensures Safe("", st) && End("", st) == st
  {
  }

  lemma {:induction false} SafeConcat(a: string, b: string, st: Scan)
    ensures Safe(a + b, st) <==> Safe(a, st) && Safe(b, End(a, st))
    ensures End(a + b, st) == End(b, End(a, st))
  {
    hide Safe, End, Fits, After;
    if a == "" {
      SafeNothing(st);
      assert a + b == b;
    } else {
      assert a == [a[0]] + a[1..] && a + b == [a[0]] + (a[1..] + b);
      SafeCons(a[0], a[1..], st);
      SafeCons(a[0], a[1..] + b, st);
      SafeConcat(a[1..], b, After(st, a[0]));
    }
  }

  lemma {:induction false} StaysJoined(s: string)
    requires forall k | 0 <= k < |s| :: Starts(s[k]) || Digit(s[k])
    ensures Safe(s, Scan(true, false)) && End(s, Scan(true, false)) == Scan(true, false)
  {
    hide Safe, End;
    if s == "" {
      SafeNothing(Scan(true, false));
    } else {
      assert s == [s[0]] + s[1..];
      SafeCons(s[0], s[1..], Scan(true, false));
      StaysJoined(s[1..]);
    }
  }

  /** A name can stand anywhere, and what follows it is joined. */
  lemma NameScan(w: string, st: Scan)
    requires w != "" && Starts(w[0]) && forall k | 0 <= k < |w| :: Starts(w[k]) || Digit(w[k])
    ensures Safe(w, st) && End(w, st) == Scan(true, false)
  {
    hide Safe, End;
    assert w == [w[0]] + w[1..];
    SafeCons(w[0], w[1..], st);
    StaysJoined(w[1..]);
  }

  // ---------------------------------------------------------------------------------------------
  // What is read at the front of a text.

  lemma DigitRunIs(s: string, d: nat)
    requires d <= |s| && (forall k | 0 <= k < d :: Digit(s[k])) && (d < |s| ==> !Digit(s[d]))
    ensures DigitRun(s) == d
  {
    hide DigitRun, Digit;
  }

  lemma NumberedMark(t: string, n: nat)
    ensures Numbered("?" + t, n) == "$" + Itoa(n + 1) + Numbered(t, n + 1)
  {
    assert ("?" + t)[1..] == t;
    hide Itoa;
  }

  lemma NumberedNothing(n: nat, joined: bool)
    ensures Numbered("", n) == "" && ByNumber("", joined) == [] && ByPosition("", n) == []
  {
  }

  lemma {:induction false} NumberedPlain(w: string, t: string, n: nat)
    requires '?' !in w
    ensures Numbered(w + t, n) == w + Numbered(t, n)
  {
    if w == "" {
      assert w + t == t;
    } else {
      assert (w + t)[1..] == w[1..] + t;
      NumberedPlain(w[1..], t, n);
      hide Numbered, Itoa;
    }
  }

  ghost predicate Digits(s: string) {
    forall k | 0 <= k < |s| :: Digit(s[k])
  }

  ghost predicate DigitFirst(s: string) {
    s != "" && Digit(s[0])
  }

  /** rb puts no digit at the front of a text. */
  lemma NumberedFirst(t: string, n: nat)
    ensures DigitFirst(Numbered(t, n)) <==> DigitFirst(t)
  {
    hide Itoa;
  }

  lemma SplitDigits(s: string) returns (digits: string, t: string)
    ensures s == digits + t && Digits(digits) && !DigitFirst(t)
    ensures DigitFirst(s) <==> digits != ""
  {
    digits, t := s[..DigitRun(s)], s[DigitRun(s)..];
  }

  /** A parameter is read where a "$" is not joined and digits are behind it. */
  lemma ReadDigits(digits: string, tail: string)
    requires digits != "" && Digits(digits) && !DigitFirst(tail)
    ensures ByNumber("$" + (digits + tail), false) == [Param(Number(digits))] + ByNumber(tail, false)
  {
    var u := "$" + (digits + tail);
    assert u[1..] == digits + tail;
    DigitRunIs(digits + tail, |digits|);
    hide DigitRun;
    assert u[1..1 + |digits|] == digits && u[1 + |digits|..] == tail;
  }

  lemma ReadChar(c: char, tail: string, joined: bool)
    requires c == '$' ==> joined || !DigitFirst(tail)
    ensures ByNumber([c] + tail, joined) == [Char(c)] + ByNumber(tail, Join(joined, c))
  {
    assert ([c] + tail)[1..] == tail;
    DigitRunIs(tail, DigitRun(tail));
    assert !DigitFirst(tail) ==> DigitRun(tail) == 0;
    hide DigitRun, Join;
  }

  /** A "?" with the digits behind it: one parameter, whose number has those digits at its end. */
  lemma ReadMark(digits: string, t: string, n: nat)
    requires Digits(digits) && !DigitFirst(t)
    ensures Digits(Itoa(n + 1) + digits)
    ensures ByNumber(Numbered("?" + (digits + t), n), false) ==
            [Param(Number(Itoa(n + 1) + digits))] + ByNumber(Numbered(t, n + 1), false)
  {
    hide ByNumber, Numbered, Number;
    var k := Itoa(n + 1);
    hide Itoa;
    NumberedMark(digits + t, n);
    NumberedPlain(digits, t, n + 1);
    NumberedFirst(t, n + 1);
    hide DigitFirst;
    ReadDigits(k + digits, Numbered(t, n + 1));
    assert "$" + k + (digits + Numbered(t, n + 1)) == "$" + ((k + digits) + Numbered(t, n + 1));
  }

  /** A "?" that is joined: no parameter at all. */
  lemma ReadJoinedMark(t: string, n: nat)
    ensures var r := ByNumber(Numbered("?" + t, n), true); r != [] && r[0] == Char('$')
  {
    hide Numbered, Itoa;
    NumberedMark(t, n);
    var x := Itoa(n + 1) + Numbered(t, n + 1);
    assert "$" + Itoa(n + 1) + Numbered(t, n + 1) == ['$'] + x;
    ReadChar('$', x, true);
  }

  lemma ReadOther(c: char, t: string, n: nat, joined: bool)
    requires c != '?' && (c == '$' ==> joined || !DigitFirst(t))
    ensures ByNumber(Numbered([c] + t, n), joined) == [Char(c)] + ByNumber(Numbered(t, n), Join(joined, c))
  {
    hide ByNumber, Numbered, Join;
    NumberedPlain([c], t, n);
    NumberedFirst(t, n);
    ReadChar(c, Numbered(t, n), joined);
  }

  /** A "$" that is not joined and has digits behind it: one parameter that rb did not make. */
  lemma ReadDollar(t: string, n: nat)
    requires DigitFirst(t)
    ensures var r := ByNumber(Numbered("$" + t, n), false); r != [] && r[0].Param?
  {
    hide Numbered;
    NumberedPlain("$", t, n);
    NumberedFirst(t, n);
    var x := Numbered(t, n);
    var digits, tail := SplitDigits(x);
    ReadDigits(digits, tail);
  }

  // ---------------------------------------------------------------------------------------------

  lemma {:induction false} NumberGrows(a: string, b: string)
    requires Digits(a) && Digits(b)
    ensures Digits(a + b) && Number(a + b) >= Number(a)
    ensures Number(a) > 0 && b != "" ==> Number(a + b) > Number(a)
  {
    if b == "" {
      assert a + b == a;
    } else {
      var n := |b| - 1;
      assert (a + b)[..|a + b| - 1] == a + b[..n];
      NumberGrows(a, b[..n]);
      NumberSnoc(a + b);
      hide Number;
    }
  }

  lemma NumberSnoc(s: string)
    requires Digits(s) && s != ""
    ensures Digits(s[..|s| - 1]) && Number(s) >= 10 * Number(s[..|s| - 1])
  {
    assert Digit(s[|s| - 1]);
  }

  lemma ItoaIsDigits(n: nat)
    ensures Digits(Itoa(n))
  {
  }

  lemma PositionCons(c: char, t: string, n: nat)
    ensures ByPosition([c] + t, n) ==
            if c == '?' then [Param(n + 1)] + ByPosition(t, n + 1) else [Char(c)] + ByPosition(t, n)
  {
    assert ([c] + t)[1..] == t;
  }

  lemma SafeFirst(t: string, st: Scan)
    requires DigitFirst(t) && st.open
    ensures !Safe(t, st)
  {
  }

  /** Without a digit at its front, only what is in front of a text being joined matters to it. */
  lemma SafeOpen(t: string, st: Scan)
    requires !DigitFirst(t)
    ensures Safe(t, st) <==> Safe(t, Scan(st.joined, false))
  {
  }

  lemma ConsEqual(p: Piece, ps: seq<Piece>, r: Piece, rs: seq<Piece>)
    ensures [p] + ps == [r] + rs <==> p == r && ps == rs
  {
    assert ([p] + ps)[0] == p && ([r] + rs)[0] == r;
    assert ([p] + ps)[1..] == ps && ([r] + rs)[1..] == rs;
  }

  ghost predicate Agrees(q: string, n: nat, st: Scan) {
    ByNumber(Numbered(q, n), st.joined) == ByPosition(q, n) <==> Safe(q, Scan(st.joined, false))
  }

  lemma AgreesMark(t: string, n: nat, joined: bool)
    requires !joined ==> Agrees(t, n + 1, OUTSIDE)
    ensures Agrees("?" + t, n, Scan(joined, false))
  {
    hide ByNumber, Numbered, ByPosition, Safe, Number;
    PositionCons('?', t, n);
    SafeCons('?', t, Scan(joined, false));
    if joined {
      ReadJoinedMark(t, n);
    } else {
      var digits, x := SplitDigits(t);
      ReadMark(digits, x, n);
      NumberOfItoa(n + 1);
      ItoaIsDigits(n + 1);
      hide Itoa;
      NumberGrows(Itoa(n + 1), digits);
      ConsEqual(Param(Number(Itoa(n + 1) + digits)), ByNumber(Numbered(x, n + 1), false),
                Param(n + 1), ByPosition(t, n + 1));
      if digits == "" {
        assert Itoa(n + 1) + digits == Itoa(n + 1) && digits + x == x;
        SafeOpen(t, Scan(false, true));
      } else {
        SafeFirst(t, Scan(false, true));
      }
    }
  }

  lemma AgreesOther(c: char, t: string, n: nat, joined: bool)
    requires c != '?' && Agrees(t, n, Scan(Join(joined, c), false))
    ensures Agrees([c] + t, n, Scan(joined, false))
  {
    hide ByNumber, Numbered, ByPosition, Safe;
    PositionCons(c, t, n);
    var st := Scan(joined, false);
    SafeCons(c, t, st);
    if c == '$' && !joined && DigitFirst(t) {
      ReadDollar(t, n);
      SafeFirst(t, After(st, c));
    } else {
      ReadOther(c, t, n, joined);
      ConsEqual(Char(c), ByNumber(Numbered(t, n), Join(joined, c)), Char(c), ByPosition(t, n));
      if c == '$' && !joined {
        SafeOpen(t, After(st, c));
      }
    }
  }

  lemma {:induction false} ReadingsAgree(q: string, n: nat, joined: bool)
    ensures ByNumber(Numbered(q, n), joined) == ByPosition(q, n) <==> Safe(q, Scan(joined, false))
    decreases |q|
  {
    hide ByNumber, Numbered, ByPosition, Safe, Join;
    if q == "" {
      NumberedNothing(n, joined);
      SafeNothing(Scan(joined, false));
    } else if q[0] == '?' {
      assert q == "?" + q[1..];
      ReadingsAgree(q[1..], n + 1, false);
      AgreesMark(q[1..], n, joined);
    } else {
      assert q == [q[0]] + q[1..];
      ReadingsAgree(q[1..], n, Join(joined, q[0]));
      AgreesOther(q[0], q[1..], n, joined);
    }
  }

  /**
   Binding is preserved: reading rb's output by number is reading the text by position, for every
   text and any number of placeholders, exactly when the text is safe.
   */
  lemma BindingPreserved(q: string)
    ensures ByNumber(Numbered(q, 0), false) == ByPosition(q, 0) <==> Safe(q, OUTSIDE)
  {
    ReadingsAgree(q, 0, false);
  }

  /** Texts that are not: a digit becomes part of the number... */
  lemma DigitBehindMark()
    ensures Numbered("?1", 0) == "$11" && !Safe("?1", OUTSIDE)
    ensures ByNumber("$11", false) == [Param(11)] && ByPosition("?1", 0) == [Param(1), Char('1')]
  {
    assert "?1" == "?" + "1" && ['?'] + "1" == "?1" && ['1'] + "" == "1";
    SafeCons('?', "1", OUTSIDE);
    SafeFirst("1", Scan(false, true));
    PositionCons('?', "1", 0);
    PositionCons('1', "", 1);
    NumberedMark("1", 0);
    NumberedPlain("1", "", 1);
    NumberedNothing(1, false);
    assert "1" + "" == "1" && Itoa(1) == "1";
    Eleven();
    hide Numbered, ByNumber, ByPosition, Safe, Number, Itoa;
    assert "$11" == "$" + ("11" + "");
    ReadDigits("11", "");
  }

  lemma Eleven()
    ensures Digits("11") && Number("11") == 11
  {
    assert "11"[..1] == "1" && "1"[..0] == "" && Digit('1');
  }

  /** ...or the placeholder part of the identifier in front of it... */
  ghost predicate Identifier(w: string) {
    && w != "" && !('0' <= w[0] <= '9') && w[0] != '$'
    && forall k | 0 <= k < |w| ::
         var c := w[k];
         'a' <= c <= 'z' || 'A' <= c <= 'Z' || c == '_' || c >= '\U{80}' || '0' <= c <= '9' || c == '$'
  }

  lemma {:induction false} JoinedReads(s: string)
    requires forall k | 0 <= k < |s| :: Join(true, s[k])
    ensures forall p | p in ByNumber(s, true) :: p.Char?
  {
    if s == "" {
    } else {
      hide DigitRun;
      JoinedReads(s[1..]);
    }
  }

  lemma {:induction false} JoinedEnd(s: string)
    requires forall k | 0 <= k < |s| :: Join(true, s[k])
    ensures End(s, Scan(true, false)) == Scan(true, false) && '?' !in s
  {
    if s == "" {
    } else {
      JoinedEnd(s[1..]);
    }
  }

  lemma MarkBehindWord(w: string)
    requires Identifier(w)
    ensures Numbered(w + "?", 0) == w + "$1" && !Safe(w + "?", OUTSIDE)
    ensures forall p | p in ByNumber(w + "$1", false) :: p.Char?
  {
    hide Safe, End, ByNumber, Numbered;
    var tail := w[1..];
    assert forall k | 0 <= k < |tail| :: tail[k] == w[k + 1];
    assert w == [w[0]] + tail && Join(false, w[0]);
    JoinedEnd(tail);
    SafeCons(w[0], tail, OUTSIDE);
    NumberedPlain(w, "?", 0);
    assert "?" + "" == "?" && ['?'] + "" == "?" && Itoa(1) == "1";
    NumberedMark("", 0);
    NumberedNothing(1, false);
    SafeConcat(w, "?", OUTSIDE);
    SafeCons('?', "", Scan(true, false));
    ReadChar(w[0], tail + "$1", false);
    assert w + "$1" == [w[0]] + (tail + "$1");
    JoinedReads(tail + "$1");
  }

  /** ...or of the "$" in front of it, which then is no parameter. */
  lemma MarkBehindDollar()
    ensures Numbered("$?", 0) == "$$1" && !Safe("$?", OUTSIDE)
    ensures forall p | p in ByNumber("$$1", false) :: p.Char?
  {
    hide Safe, ByNumber, Numbered;
    assert "$" + "?" == "$?" && "?" + "" == "?" && ['?'] + "" == "?" && ['$'] + "?" == "$?" && Itoa(1) == "1";
    NumberedPlain("$", "?", 0);
    NumberedMark("", 0);
    NumberedNothing(1, false);
    SafeCons('$', "?", OUTSIDE);
    SafeCons('?', "", After(OUTSIDE, '$'));
    ReadChar('$', "$1", false);
    assert ['$'] + "$1" == "$$1";
    JoinedReads("$1");
  }

  // ---------------------------------------------------------------------------------------------
  // The parameters alone.

  function Marks(q: string): nat {
    if q == "" then 0 else (if q[0] == '?' then 1 else 0) + Marks(q[1..])
  }

  /** The parameters of a statement, in the order they are met. */
  function Params(ps: seq<Piece>): seq<nat> {
    if ps == [] then []
    else (if ps[0].Param? then [ps[0].k] else []) + Params(ps[1..])
  }

  /** The numbers after n, m of them. */
  function Next(n: nat, m: nat): (r: seq<nat>)
    ensures |r| == m
    decreases m
  {
    if m == 0 then [] else [n + 1] + Next(n + 1, m - 1)
  }

  lemma ParamsCons(p: Piece, ps: seq<Piece>)
    ensures Params([p] + ps) == (if p.Param? then [p.k] else []) + Params(ps)
  {
    assert ([p] + ps)[1..] == ps;
  }

  lemma {:induction false} ParamsByPosition(q: string, n: nat)
    ensures Params(ByPosition(q, n)) == Next(n, Marks(q))
  {
    if q == "" {
    } else {
      var m := if q[0] == '?' then n + 1 else n;
      ParamsByPosition(q[1..], m);
      ParamsCons(if q[0] == '?' then Param(n + 1) else Char(q[0]), ByPosition(q[1..], m));
      hide Params;
    }
  }

  lemma {:induction false} MarksConcat(a: string, b: string)
    ensures Marks(a + b) == Marks(a) + Marks(b)
  {
    if a == "" {
      assert a + b == b;
    } else {
      assert (a + b)[1..] == a[1..] + b;
      MarksConcat(a[1..], b);
    }
  }

  lemma {:induction false} NoMarks(s: string)
    ensures Marks(s) == 0 <==> '?' !in s
  {
    if s == "" {
    } else {
      NoMarks(s[1..]);
      assert '?' in s <==> s[0] == '?' || '?' in s[1..];
    }
  }
}
