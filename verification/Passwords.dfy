/** Encoded password hashes (HashPassword and VerifyPassword in internal/auth/password.go). */
module Passwords {
  import opened Prelude
  import opened Pbkdf2
  import opened Text

  const ITERATIONS: nat := 120_000
  const KEY_LENGTH: nat := 32

  // ---------------------------------------------------------------------------------------------
  // encoding/hex.

  function HexDigit(n: nat): char
    requires n < 16
  {
    if n < 10 then DigitOf(n) else ('a' as int + (n - 10)) as char
  }

  function HexValue(c: char): (v: Option<nat>)
    ensures v.Some? ==> v.value < 16
  {
    if Digit(c) then Some(c as int - '0' as int)
    else if 'a' <= c <= 'f' then Some(c as int - 'a' as int + 10)
    else if 'A' <= c <= 'F' then Some(c as int - 'A' as int + 10)
    else None
  }

  function HexEncode(b: seq<Octet>): string {
    if b == [] then ""
    else [HexDigit(b[0] as int / 16), HexDigit(b[0] as int % 16)] + HexEncode(b[1..])
  }

  function HexDecode(s: string): Option<seq<Octet>> {
    if s == "" then Some([])
    else if |s| == 1 || HexValue(s[0]).None? || HexValue(s[1]).None? then None
    else
      match HexDecode(s[2..])
      case None => None
      case Some(rest) => Some([(16 * HexValue(s[0]).value + HexValue(s[1]).value) as Octet] + rest)
  }

  lemma HexDigits(o: Octet)
    ensures HexValue(HexDigit(o as int / 16)) == Some(o as int / 16) && HexDigit(o as int / 16) != '$'
    ensures HexValue(HexDigit(o as int % 16)) == Some(o as int % 16) && HexDigit(o as int % 16) != '$'
  {
  }

  lemma {:induction false} HexRoundTrip(b: seq<Octet>)
    ensures HexDecode(HexEncode(b)) == Some(b)
    ensures '$' !in HexEncode(b)
  {
    if b == [] {
    } else {
      HexRoundTrip(b[1..]);
      HexDigits(b[0]);
      hide HexDigit, HexValue;
      assert HexEncode(b)[2..] == HexEncode(b[1..]);
      assert [b[0]] + b[1..] == b;
    }
  }

  /** A character stands for a hexadecimal digit, in either case. */
  ghost predicate IsHex(c: char, d: nat)
    requires d < 16
  {
    c == "0123456789abcdef"[d] || c == "0123456789ABCDEF"[d]
  }

  ghost predicate IsHexOf(s: string, b: seq<Octet>) {
    && |s| == 2 * |b|
    && forall i | 0 <= i < |b| :: IsHex(s[2 * i], b[i] as nat / 16) && IsHex(s[2 * i + 1], b[i] as nat % 16)
  }

  lemma HexValueIs(c: char, d: nat)
    requires d < 16
    ensures HexValue(c) == Some(d) <==> IsHex(c, d)
  {
    hide DigitOf;
  }

  lemma HexDigitIs(d: nat)
    requires d < 16
    ensures HexDigit(d) == "0123456789abcdef"[d]
  {
  }

  lemma {:induction false} HexEncodes(b: seq<Octet>, i: nat)
    requires i < |b|
    ensures |HexEncode(b)| == 2 * |b|
    ensures HexEncode(b)[2 * i] == "0123456789abcdef"[b[i] as nat / 16]
    ensures HexEncode(b)[2 * i + 1] == "0123456789abcdef"[b[i] as nat % 16]
  {
    hide HexDigit;
    HexDigitIs(b[0] as nat / 16);
    HexDigitIs(b[0] as nat % 16);
    if |b| > 1 {
      HexEncodes(b[1..], if i == 0 then 0 else i - 1);
    }
  }

  lemma TwoDigits(x: nat, y: nat, o: Octet)
    requires x < 16 && y < 16
    ensures (16 * x + y) as Octet == o <==> x == o as nat / 16 && y == o as nat % 16
  {
  }

  lemma ConsIs(o: Octet, rest: seq<Octet>, b: seq<Octet>)
    requires b != []
    ensures [o] + rest == b <==> o == b[0] && rest == b[1..]
  {
    assert b == [b[0]] + b[1..];
    assert ([o] + rest)[1..] == rest;
  }

  lemma HexStep(s: string, b: seq<Octet>)
    requires |s| >= 2 && b != []
    ensures HexDecode(s) == Some(b) <==>
            && HexValue(s[0]) == Some(b[0] as nat / 16) && HexValue(s[1]) == Some(b[0] as nat % 16)
            && HexDecode(s[2..]) == Some(b[1..])
  {
    hide HexValue;
    if HexValue(s[0]).Some? && HexValue(s[1]).Some? && HexDecode(s[2..]).Some? {
      var x, y := HexValue(s[0]).value, HexValue(s[1]).value;
      TwoDigits(x, y, b[0]);
      ConsIs((16 * x + y) as Octet, HexDecode(s[2..]).value, b);
    }
  }

  /** Decoding reads two digits for each octet, the high one first, and accepts nothing else. */
  lemma {:induction false} HexDecodes(s: string, b: seq<Octet>)
    ensures HexDecode(s) == Some(b) <==> IsHexOf(s, b)
    decreases |s|
  {
    if |s| < 2 || b == [] {
      hide HexValue, IsHex;
    } else {
      hide HexValue, IsHex, HexDecode, IsHexOf;
      HexStep(s, b);
      HexDecodes(s[2..], b[1..]);
      HexValueIs(s[0], b[0] as nat / 16);
      HexValueIs(s[1], b[0] as nat % 16);
      HexCons(s, b);
    }
  }

  lemma HexCons(s: string, b: seq<Octet>)
    requires |s| >= 2 && b != []
    ensures IsHexOf(s, b) <==>
            IsHex(s[0], b[0] as nat / 16) && IsHex(s[1], b[0] as nat % 16) && IsHexOf(s[2..], b[1..])
  {
    hide IsHex;
    if IsHexOf(s, b) {
      forall i | 0 <= i < |b[1..]|
        ensures IsHex(s[2..][2 * i], b[1..][i] as nat / 16) && IsHex(s[2..][2 * i + 1], b[1..][i] as nat % 16)
      {
        assert s[2..][2 * i] == s[2 * (i + 1)] && s[2..][2 * i + 1] == s[2 * (i + 1) + 1] && b[1..][i] == b[i + 1];
      }
    }
    if IsHexOf(s[2..], b[1..]) && IsHex(s[0], b[0] as nat / 16) && IsHex(s[1], b[0] as nat % 16) {
      forall i | 0 <= i < |b|
        ensures IsHex(s[2 * i], b[i] as nat / 16) && IsHex(s[2 * i + 1], b[i] as nat % 16)
      {
        if i > 0 {
          assert s[2..][2 * (i - 1)] == s[2 * i] && s[2..][2 * (i - 1) + 1] == s[2 * i + 1] && b[1..][i - 1] == b[i];
        }
      }
    }
  }

  // ---------------------------------------------------------------------------------------------
  // strings.Split and strconv.Atoi.

  function Split(s: string, sep: char): (parts: seq<string>)
    ensures |parts| >= 1
  {
    if s == "" then [""]
    else
      var rest := Split(s[1..], sep);
      if s[0] == sep then [""] + rest else [[s[0]] + rest[0]] + rest[1..]
  }

  lemma {:induction false} SplitPart(part: string, rest: string, sep: char)
    requires sep !in part
    ensures Split(part, sep) == [part]
    ensures Split(part + [sep] + rest, sep) == [part] + Split(rest, sep)
  {
    var s := part + [sep] + rest;
    if part == "" {
      assert s[1..] == rest;
    } else {
      SplitPart(part[1..], rest, sep);
      assert [part[0]] + part[1..] == part;
      assert s[1..] == part[1..] + [sep] + rest;
    }
  }

  /** Texts put together again with separators between them. */
  function Joined(parts: seq<string>, sep: char): string
    requires parts != []
  {
    if |parts| == 1 then parts[0] else parts[0] + [sep] + Joined(parts[1..], sep)
  }

  lemma {:induction false} SplitJoins(s: string, sep: char)
    ensures Joined(Split(s, sep), sep) == s
    ensures forall k | 0 <= k < |Split(s, sep)| :: sep !in Split(s, sep)[k]
  {
    if s == "" {
    } else {
      SplitJoins(s[1..], sep);
      var rest := Split(s[1..], sep);
      assert s == [s[0]] + s[1..];
      hide Split;
      SplitUnfold(s, sep);
      if s[0] == sep {
        assert ([""] + rest)[1..] == rest;
      } else {
        assert ([[s[0]] + rest[0]] + rest[1..])[1..] == rest[1..];
      }
    }
  }

  lemma SplitUnfold(s: string, sep: char)
    requires s != ""
    ensures var rest := Split(s[1..], sep);
            Split(s, sep) == if s[0] == sep then [""] + rest else [[s[0]] + rest[0]] + rest[1..]
  {
  }

  lemma JoinedFour(parts: seq<string>, sep: char)
    requires |parts| == 4
    ensures Joined(parts, sep) == parts[0] + [sep] + (parts[1] + [sep] + (parts[2] + [sep] + parts[3]))
  {
    assert parts[1..][1..] == parts[2..] && parts[2..][1..] == parts[3..];
    assert Joined(parts[3..], sep) == parts[3];
    assert Joined(parts[2..], sep) == parts[2] + [sep] + parts[3];
  }

  predicate AllDigits(s: string) {
    forall k | 0 <= k < |s| :: Digit(s[k])
  }

  /** Decimal, with a sign or without, within 64 bits. */
  function Atoi(s: string): Option<int> {
    var digits := if s != "" && (s[0] == '+' || s[0] == '-') then s[1..] else s;
    if digits == "" || !AllDigits(digits) then None
    else
      var n: int := if s[0] == '-' then -(Number(digits) as int) else Number(digits) as int;
      if -0x8000_0000_0000_0000 <= n < 0x8000_0000_0000_0000 then Some(n) else None
  }

  lemma AtoiOfItoa(n: nat)
    requires n < 0x8000_0000_0000_0000
    ensures Atoi(Itoa(n)) == Some(n)
    ensures '$' !in Itoa(n)
  {
    NumberOfItoa(n);
    assert Digit(Itoa(n)[0]);
    hide Itoa, Number;
  }

  // ---------------------------------------------------------------------------------------------

  datatype Hash = Hash(iter: nat, salt: seq<Octet>, key: seq<Octet>)

  function Encode(h: Hash): string {
    "pbkdf2" + "$" + (Itoa(h.iter) + "$" + (HexEncode(h.salt) + "$" + HexEncode(h.key)))
  }

  /** What VerifyPassword reads out of an encoded hash, or nothing where it gives up. */
  function Parse(encoded: string): Option<Hash> {
    var parts := Split(encoded, '$');
    if |parts| != 4 || parts[0] != "pbkdf2" then None
    else
      var iter, salt, want := Atoi(parts[1]), HexDecode(parts[2]), HexDecode(parts[3]);
      if iter.None? || iter.value <= 0 || salt.None? || want.None? then None
      else Some(Hash(iter.value, salt.value, want.value))
  }

  lemma SplitFour(a: string, b: string, c: string, d: string)
    requires '$' !in a && '$' !in b && '$' !in c && '$' !in d
    ensures Split(a + "$" + (b + "$" + (c + "$" + d)), '$') == [a, b, c, d]
  {
    hide Split;
    SplitPart(d, "", '$');
    SplitPart(c, d, '$');
    SplitPart(b, c + "$" + d, '$');
    SplitPart(a, b + "$" + (c + "$" + d), '$');
  }

  /** Decimal digits for n, within 64 bits. */
  ghost predicate Numeral(digits: string, n: nat) {
    && digits != "" && (forall k | 0 <= k < |digits| :: '0' <= digits[k] <= '9')
    && Number(digits) == n < 0x8000_0000_0000_0000
  }

  lemma AtoiReads(s: string, n: nat)
    requires n > 0
    ensures Atoi(s) == Some(n) <==> Numeral(s, n) || (s != "" && s[0] == '+' && Numeral(s[1..], n))
  {
    if s != "" {
      assert !Digit('+') && !Digit('-');
      assert AllDigits(s) ==> Digit(s[0]);
    }
  }

  /** The text is a hash in the encoded form: scheme, count, salt and key, in this order. */
  ghost predicate Written(encoded: string, h: Hash, count: string, salt: string, key: string) {
    && '$' !in count && encoded == "pbkdf2$" + count + "$" + salt + "$" + key
    && h.iter > 0 && (Numeral(count, h.iter) || (count != "" && count[0] == '+' && Numeral(count[1..], h.iter)))
    && IsHexOf(salt, h.salt) && IsHexOf(key, h.key)
  }

  lemma {:induction false} HexHasNoDollar(s: string, b: seq<Octet>)
    requires IsHexOf(s, b)
    ensures '$' !in s
  {
    forall k | 0 <= k < |s|
      ensures s[k] != '$'
    {
      var i := k / 2;
      assert IsHex(s[2 * i], b[i] as nat / 16) && IsHex(s[2 * i + 1], b[i] as nat % 16);
      assert k == 2 * i || k == 2 * i + 1;
    }
  }

  lemma Regrouped(count: string, salt: string, key: string)
    ensures "pbkdf2$" + count + "$" + salt + "$" + key == "pbkdf2" + "$" + (count + "$" + (salt + "$" + key))
  {
    assert "pbkdf2$" == "pbkdf2" + "$";
  }

  lemma WrittenParses(encoded: string, h: Hash, count: string, salt: string, key: string)
    requires Written(encoded, h, count, salt, key)
    ensures Parse(encoded) == Some(h)
  {
    hide Split, Atoi, HexDecode, IsHexOf, Numeral;
    HexHasNoDollar(salt, h.salt);
    HexHasNoDollar(key, h.key);
    Regrouped(count, salt, key);
    SplitFour("pbkdf2", count, salt, key);
    AtoiReads(count, h.iter);
    HexDecodes(salt, h.salt);
    HexDecodes(key, h.key);
  }

  lemma ParsedIsWritten(encoded: string, h: Hash) returns (count: string, salt: string, key: string)
    requires Parse(encoded) == Some(h)
    ensures Written(encoded, h, count, salt, key)
  {
    hide Split, Atoi, HexDecode, IsHexOf, Numeral;
    var parts := Split(encoded, '$');
    count, salt, key := parts[1], parts[2], parts[3];
    SplitJoins(encoded, '$');
    JoinedFour(parts, '$');
    Regrouped(count, salt, key);
    AtoiReads(count, h.iter);
    HexDecodes(salt, h.salt);
    HexDecodes(key, h.key);
  }

  /** A text is read as a hash exactly when it is that hash in the encoded form. */
  lemma ParsesExactly(encoded: string, h: Hash)
    ensures Parse(encoded) == Some(h) <==> exists count, salt, key :: Written(encoded, h, count, salt, key)
  {
    hide Written, Parse;
    if Parse(encoded) == Some(h) {
      var count, salt, key := ParsedIsWritten(encoded, h);
    }
    if exists count, salt, key :: Written(encoded, h, count, salt, key) {
      var count, salt, key :| Written(encoded, h, count, salt, key);
      WrittenParses(encoded, h, count, salt, key);
    }
  }

  /** An encoded hash is read back as it was, for every iteration count, salt and key. */
  lemma ParseInvertsEncode(h: Hash)
    requires 0 < h.iter < 0x8000_0000_0000_0000
    ensures Parse(Encode(h)) == Some(h)
  {
    hide Split, Itoa, HexEncode, HexDecode, Atoi;
    AtoiOfItoa(h.iter);
    HexRoundTrip(h.salt);
    HexRoundTrip(h.key);
    SplitFour("pbkdf2", Itoa(h.iter), HexEncode(h.salt), HexEncode(h.key));
  }

  /** Whether the password derives the key of a hash. */
  ghost predicate Matches(prf: Prf, password: seq<Octet>, h: Hash)
    requires HLenOutput(prf)
  {
    h.iter >= 1 && DK(prf, password, h.salt, h.iter, |h.key|) == h.key
  }

  lemma WrittenHashes(encoded: string)
    ensures forall h, count, salt, key :: Written(encoded, h, count, salt, key) ==> Parse(encoded) == Some(h)
    ensures Parse(encoded).Some? ==>
              exists count, salt, key :: Written(encoded, Parse(encoded).value, count, salt, key)
  {
    hide Parse, Written;
    forall h, count, salt, key | Written(encoded, h, count, salt, key)
      ensures Parse(encoded) == Some(h)
    {
      ParsesExactly(encoded, h);
    }
    if Parse(encoded).Some? {
      ParsesExactly(encoded, Parse(encoded).value);
    }
  }

  /** `random` is what the random source gives for the salt. */
  method HashPassword(prf: Prf, password: seq<Octet>, random: Result<seq<Octet>, string>)
    returns (encoded: Result<string, string>)
    requires HLenOutput(prf)
    ensures random.Err? ==> encoded == Err(random.error)
    ensures random.Ok? ==>
              var key := DK(prf, password, random.value, 120_000, 32);
              && encoded == Ok("pbkdf2$120000$" + HexEncode(random.value) + "$" + HexEncode(key))
              && Parse(encoded.value) == Some(Hash(120_000, random.value, key))
  {
    hide Parse, HLenOutput, DK, HexEncode, Itoa;
    if random.Err? {
      return Err(random.error);
    }
    var salt := random.value;
    var key := Derive(prf, password, salt, ITERATIONS, KEY_LENGTH);
    encoded := Ok(Encode(Hash(ITERATIONS, salt, key)));
    ParseInvertsEncode(Hash(ITERATIONS, salt, key));
    CountIsWritten();
    Regrouped(Itoa(ITERATIONS), HexEncode(salt), HexEncode(key));
    assert "pbkdf2$" + "120000" + "$" == "pbkdf2$120000$";
  }

  lemma CountIsWritten()
    ensures Itoa(ITERATIONS) == "120000"
  {
    assert Itoa(1) == "1" && Itoa(12) == Itoa(1) + "2" && Itoa(120) == Itoa(12) + "0";
    assert Itoa(1200) == Itoa(120) + "0" && Itoa(12000) == Itoa(1200) + "0";
    assert Itoa(120000) == Itoa(12000) + "0";
  }

  method VerifyPassword(prf: Prf, password: seq<Octet>, encoded: string) returns (ok: bool)
    requires HLenOutput(prf)
    ensures ok <==> exists h, count, salt, key ::
              Written(encoded, h, count, salt, key) && DK(prf, password, h.salt, h.iter, |h.key|) == h.key
    ensures ok <==> Parse(encoded).Some? && Matches(prf, password, Parse(encoded).value)
  {
    hide HLenOutput, DK, Split, Atoi, HexDecode;
    WrittenHashes(encoded);
    hide Written;
    var parts := Split(encoded, '$');
    if |parts| != 4 || parts[0] != "pbkdf2" {
      return false;
    }
    var iter := Atoi(parts[1]);
    if iter.None? || iter.value <= 0 {
      return false;
    }
    var salt := HexDecode(parts[2]);
    if salt.None? {
      return false;
    }
    var want := HexDecode(parts[3]);
    if want.None? {
      return false;
    }
    var got := Derive(prf, password, salt.value, iter.value, |want.value|);
    ok := got == want.value;
  }

  /** A password is accepted against a stored hash exactly when it derives the same key. */
  method HashThenVerify(prf: Prf, password: seq<Octet>, salt: seq<Octet>, attempt: seq<Octet>) returns (ok: bool)
    requires HLenOutput(prf)
    ensures ok <==> DK(prf, attempt, salt, ITERATIONS, KEY_LENGTH) == DK(prf, password, salt, ITERATIONS, KEY_LENGTH)
    ensures attempt == password ==> ok
  {
    hide Parse, HLenOutput;
    var encoded := HashPassword(prf, password, Ok(salt));
    ok := VerifyPassword(prf, attempt, encoded.value);
    hide DK;
  }
}
