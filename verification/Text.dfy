/** Decimal numerals and Unicode white space, as strconv.Itoa and strings.TrimSpace have them. */
module Text {

  predicate Digit(c: char) {
    '0' <= c <= '9'
  }

  /** The length of the leading run of characters of a kind. */
  function Leading(s: string, kind: char -> bool): (n: nat)
    ensures n <= |s| && (forall k | 0 <= k < n :: kind(s[k])) && (n < |s| ==> !kind(s[n]))
  {
    if s == "" || !kind(s[0]) then 0 else 1 + Leading(s[1..], kind)
  }

  function DigitOf(d: nat): (c: char)
    requires d < 10
    ensures Digit(c) && c as int - '0' as int == d
  {
    ('0' as int + d) as char
  }

  function Itoa(n: nat): (s: string)
    ensures |s| > 0 && forall k | 0 <= k < |s| :: Digit(s[k])
  {
    if n < 10 then [DigitOf(n)] else Itoa(n / 10) + [DigitOf(n % 10)]
  }

  /** The value of a string of digits. */
  function Number(s: string): nat
    requires forall k | 0 <= k < |s| :: Digit(s[k])
  {
    if s == "" then 0
    else
      assert Digit(s[|s| - 1]);
      10 * Number(s[..|s| - 1]) + (s[|s| - 1] as int - '0' as int)
  }

  lemma {:induction false} NumberOfItoa(n: nat)
    ensures Number(Itoa(n)) == n
  {
    var s := Itoa(n);
    if n >= 10 {
      assert s[..|s| - 1] == Itoa(n / 10);
      NumberOfItoa(n / 10);
    } else {
      assert s[..|s| - 1] == "";
    }
  }

  lemma ItoaInjective(m: nat, n: nat)
    requires Itoa(m) == Itoa(n)
    ensures m == n
  {
    NumberOfItoa(m);
    NumberOfItoa(n);
  }

  lemma ItoaUnfold(m: nat, c: char)
    requires Digit(c)
    ensures Itoa(10 * m + (c as int - '0' as int)) == (if m == 0 then "" else Itoa(m)) + [c]
  {
    var d := c as int - '0' as int;
    assert (10 * m + d) / 10 == m && (10 * m + d) % 10 == d;
    assert DigitOf(d) == c;
  }

  lemma NumberUnfold(s: string, c: char)
    requires (forall k | 0 <= k < |s| :: Digit(s[k])) && Digit(c)
    ensures forall k | 0 <= k < |s + [c]| :: Digit((s + [c])[k])
    ensures Number(s + [c]) == 10 * Number(s) + (c as int - '0' as int) && Number("") == 0
  {
    assert (s + [c])[..|s|] == s;
  }

  /** A numeral has no leading zero, and there is no other one without for the number. */
  lemma {:induction false} ItoaIsTheNumeral(s: string)
    requires s != "" && (forall k | 0 <= k < |s| :: Digit(s[k])) && (|s| > 1 ==> s[0] != '0')
    ensures Itoa(Number(s)) == s
    ensures s[0] != '0' ==> Number(s) > 0
    decreases |s|
  {
    hide Itoa, Number;
    var n := |s| - 1;
    var init, c := s[..n], s[n];
    assert s == init + [c];
    NumberUnfold(init, c);
    if n == 0 {
      ItoaUnfold(0, c);
    } else {
      ItoaIsTheNumeral(init);
      ItoaUnfold(Number(init), c);
    }
  }

  lemma {:induction false} NoLeadingZero(n: nat)
    ensures n > 0 ==> Itoa(n)[0] != '0'
  {
    if n >= 10 {
      NoLeadingZero(n / 10);
    }
  }

  /** unicode.IsSpace. */
  predicate Space(c: char) {
    || '\t' <= c <= '\r'
    || c in {' ', '\U{85}', '\U{A0}', '\U{1680}', '\U{2028}', '\U{2029}', '\U{202F}', '\U{205F}', '\U{3000}'}
    || '\U{2000}' <= c <= '\U{200A}'
  }

  /** The 25 code points that Unicode counts as white space. */
  lemma Spaces(c: char)
    ensures Space(c) <==>
            c as int in {9, 10, 11, 12, 13, 0x20, 0x85, 0xA0, 0x1680, 0x2000, 0x2001, 0x2002, 0x2003, 0x2004, 0x2005,
                         0x2006, 0x2007, 0x2008, 0x2009, 0x200A, 0x2028, 0x2029, 0x202F, 0x205F, 0x3000}
  {
  }

  /** Without the leading and trailing characters of a kind. */
  function TrimLeft(s: string, kind: char -> bool): string {
    if s != "" && kind(s[0]) then TrimLeft(s[1..], kind) else s
  }

  function TrimRight(s: string, kind: char -> bool): string {
    if s != "" && kind(s[|s| - 1]) then TrimRight(s[..|s| - 1], kind) else s
  }

  function Trim(s: string, kind: char -> bool): string {
    TrimRight(TrimLeft(s, kind), kind)
  }

  function TrimSpace(s: string): string {
    Trim(s, Space)
  }

  lemma TrimNothing(s: string, kind: char -> bool)
    requires s != "" ==> !kind(s[0]) && !kind(s[|s| - 1])
    ensures Trim(s, kind) == s
  {
  }

  /** All characters are of a kind. */
  predicate Every(s: string, kind: char -> bool) {
    forall k | 0 <= k < |s| :: kind(s[k])
  }

  lemma {:induction false} TrimLeftCuts(s: string, kind: char -> bool) returns (a: string)
    ensures s == a + TrimLeft(s, kind) && Every(a, kind)
    ensures TrimLeft(s, kind) != "" ==> !kind(TrimLeft(s, kind)[0])
  {
    if s != "" && kind(s[0]) {
      a := TrimLeftCuts(s[1..], kind);
      a := [s[0]] + a;
    } else {
      a := "";
    }
  }

  lemma {:induction false} TrimRightCuts(s: string, kind: char -> bool) returns (b: string)
    ensures s == TrimRight(s, kind) + b && Every(b, kind)
    ensures TrimRight(s, kind) != "" ==> !kind(TrimRight(s, kind)[|TrimRight(s, kind)| - 1])
  {
    if s != "" && kind(s[|s| - 1]) {
      b := TrimRightCuts(s[..|s| - 1], kind);
      b := b + [s[|s| - 1]];
    } else {
      b := "";
    }
  }

  lemma {:induction false} TrimLeftDrops(a: string, s: string, kind: char -> bool)
    requires Every(a, kind)
    ensures TrimLeft(a + s, kind) == TrimLeft(s, kind)
  {
    if a == "" {
      assert a + s == s;
    } else {
      assert (a + s)[1..] == a[1..] + s;
      TrimLeftDrops(a[1..], s, kind);
    }
  }

  lemma {:induction false} TrimRightDrops(s: string, b: string, kind: char -> bool)
    requires Every(b, kind)
    ensures TrimRight(s + b, kind) == TrimRight(s, kind)
  {
    if b == "" {
      assert s + b == s;
    } else {
      var n := |b| - 1;
      assert (s + b)[..|s| + n] == s + b[..n];
      TrimRightDrops(s, b[..n], kind);
    }
  }

  /** t is what is left of s between characters of a kind at either end, and has none at its own ends. */
  ghost predicate Between(s: string, a: string, t: string, b: string, kind: char -> bool) {
    && s == a + t + b && Every(a, kind) && Every(b, kind)
    && (t != "" ==> !kind(t[0]) && !kind(t[|t| - 1]))
  }

  lemma TrimCuts(s: string, kind: char -> bool) returns (a: string, b: string)
    ensures Between(s, a, Trim(s, kind), b, kind)
  {
    hide TrimLeft, TrimRight, Every;
    a := TrimLeftCuts(s, kind);
    var left := TrimLeft(s, kind);
    b := TrimRightCuts(left, kind);
    var t := TrimRight(left, kind);
    assert t != "" ==> (t + b)[0] == t[0];
    assert s == a + (t + b) == a + t + b;
  }

  lemma CutIsTrim(s: string, a: string, t: string, b: string, kind: char -> bool)
    requires Between(s, a, t, b, kind)
    ensures Trim(s, kind) == t
  {
    assert s == a + (t + b);
    TrimLeftDrops(a, t + b, kind);
    if t == "" {
      TrimLeftDrops(b, "", kind);
      assert t + b == b + "";
    } else {
      TrimRightDrops(t, b, kind);
    }
  }

  /** Trimming takes everything of the kind from both ends, and nothing else. */
  lemma TrimsExactly(s: string, t: string, kind: char -> bool)
    ensures Trim(s, kind) == t <==> exists a, b :: Between(s, a, t, b, kind)
  {
    hide Trim, Between;
    if Trim(s, kind) == t {
      var a, b := TrimCuts(s, kind);
    }
    if exists a, b :: Between(s, a, t, b, kind) {
      var a, b :| Between(s, a, t, b, kind);
      CutIsTrim(s, a, t, b, kind);
    }
  }
}
