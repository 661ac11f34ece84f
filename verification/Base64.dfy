/**
 The base64 codec of legacy/matrixhub-ai/api/ts/fetch.pb.ts: lookup tables, an encoder that
 flushes a reused chunk array, and a decoder.  The reference is section 4 of RFC 4648, written
 with its 24-bit groups; a text is a sequence of char codes.
 */
module Base64 {
  import opened Prelude

  type Text = seq<nat>
  type Byte = bv8

  const PAD: nat := 61

  // ---------------------------------------------------------------------------------------------
  // Section 4 of RFC 4648.

  /** Table 1: the char code of the value n. */
  function Code(n: int): nat
    requires 0 <= n < 64
  {
    if n < 26 then 'A' as int + n
    else if n < 52 then 'a' as int + (n - 26)
    else if n < 62 then '0' as int + (n - 52)
    else if n == 62 then '+' as int
    else '/' as int
  }

  /** Table 1 read backwards. */
  function Index(c: nat): (r: Option<int>)
    ensures r.Some? ==> 0 <= r.value < 64
  {
    if 'A' as int <= c <= 'Z' as int then Some(c - 'A' as int)
    else if 'a' as int <= c <= 'z' as int then Some(c - 'a' as int + 26)
    else if '0' as int <= c <= '9' as int then Some(c - '0' as int + 52)
    else if c == '+' as int then Some(62)
    else if c == '/' as int then Some(63)
    else None
  }

  lemma IndexInvertsCode(c: nat, n: int)
    requires 0 <= n < 64
    ensures Index(c) == Some(n) <==> Code(n) == c
    ensures Code(n) != PAD && Code(n) < 123
  {
  }

  function Symbol(v: Byte): nat
    requires v < 64
  {
    Code(v as int)
  }

  function Value(c: nat): (r: Option<Byte>)
    ensures r.Some? ==> r.value < 64
  {
    if Index(c).Some? then Some(Index(c).value as Byte) else None
  }

  /** The 24-bit group of three octets, and its four 6-bit digits from the left. */
  function Group(a: Byte, b: Byte, c: Byte): bv24 {
    ((a as bv24) << 16) | ((b as bv24) << 8) | (c as bv24)
  }

  function Digit(n: bv24, k: nat): (r: Byte)
    requires k < 4
    ensures r < 64
  {
    match k
    case 0 => (n >> 18) as Byte
    case 1 => ((n >> 12) & 63) as Byte
    case 2 => ((n >> 6) & 63) as Byte
    case _ => (n & 63) as Byte
  }

  /** Three octets become four symbols; a final group is filled with zero bits and padded. */
  function Encoding(x: seq<Byte>): Text {
    if x == [] then []
    else
      var n := Group(x[0], if |x| > 1 then x[1] else 0, if |x| > 2 then x[2] else 0);
      [Symbol(Digit(n, 0)), Symbol(Digit(n, 1)),
       if |x| > 1 then Symbol(Digit(n, 2)) else PAD,
       if |x| > 2 then Symbol(Digit(n, 3)) else PAD]
      + if |x| > 3 then Encoding(x[3..]) else []
  }

  ghost predicate Sextets(v: seq<Byte>) {
    forall k | 0 <= k < |v| :: v[k] < 64
  }

  /** The 24-bit group of four 6-bit values, and its three octets from the left. */
  function Quantum(a: Byte, b: Byte, c: Byte, d: Byte): bv24
    requires a < 64 && b < 64 && c < 64 && d < 64
  {
    ((a as bv24) << 18) | ((b as bv24) << 12) | ((c as bv24) << 6) | (d as bv24)
  }

  function Octet(n: bv24, k: nat): Byte
    requires k < 3
  {
    match k
    case 0 => (n >> 16) as Byte
    case 1 => ((n >> 8) & 255) as Byte
    case _ => (n & 255) as Byte
  }

  /** Four 6-bit values become three octets; what a final group leaves over is dropped. */
  ghost function Octets(v: seq<Byte>): (r: seq<Byte>)
    requires Sextets(v)
  {
    if |v| < 2 then []
    else
      var n := Quantum(v[0], v[1], if |v| > 2 then v[2] else 0, if |v| > 3 then v[3] else 0);
      if |v| == 2 then [Octet(n, 0)]
      else if |v| == 3 then [Octet(n, 0), Octet(n, 1)]
      else [Octet(n, 0), Octet(n, 1), Octet(n, 2)] + Octets(v[4..])
  }

  /** Where the payload ends: at the first pad in the second half of a quantum, or at the end. */
  function PayloadEnd(s: Text, i: nat): (r: nat)
    requires i <= |s|
    ensures i <= r <= |s|
    decreases |s| - i
  {
    if i == |s| || (s[i] == PAD && i % 4 > 1) then i else PayloadEnd(s, i + 1)
  }

  ghost predicate AllSymbols(s: Text) {
    forall k | 0 <= k < |s| :: Value(s[k]).Some?
  }

  function Values(s: Text): (r: seq<Byte>)
    requires AllSymbols(s)
    ensures |r| == |s| && Sextets(r) && forall k | 0 <= k < |s| :: Value(s[k]) == Some(r[k])
  {
    seq(|s|, k requires 0 <= k < |s| => Value(s[k]).value)
  }

  ghost function Decoding(s: Text): Result<seq<Byte>, ()> {
    var payload := s[..PayloadEnd(s, 0)];
    if AllSymbols(payload) && |payload| % 4 != 1 then Ok(Octets(Values(payload))) else Err(())
  }

  // ---------------------------------------------------------------------------------------------
  // The bit operations of the code, and the digits of the 24-bit groups.

  lemma OneMore(v: Byte)
    requires v < 255
    ensures (v + 1) as int == v as int + 1
  {
  }

  lemma ThereAndBack(v: Byte)
    ensures (v as int) as Byte == v
  {
  }

  /** The byte n, counted up to. */
  lemma {:induction false} ByteOf(n: nat) returns (v: Byte)
    requires n < 256
    ensures v as int == n
  {
    if n == 0 {
      v := 0;
    } else {
      v := ByteOf(n - 1);
      OneMore(v);
      v := v + 1;
    }
  }

  lemma ByteInt(v: Byte, n: int)
    requires v < 64 && 0 <= n < 64
    ensures 0 <= v as int < 64
    ensures n as Byte == v <==> n == v as int
  {
    SmallInt(v);
    ThereAndBack(v);
    var b := ByteOf(n);
    ThereAndBack(b);
  }

  lemma SmallInt(v: Byte)
    requires v < 64
    ensures 0 <= v as int < 64
  {
  }

  lemma ValueInvertsSymbol(c: nat, v: Byte)
    requires v < 64
    ensures Value(c) == Some(v) <==> Symbol(v) == c
    ensures Symbol(v) != PAD && Symbol(v) < 123
  {
    ByteInt(v, if Index(c).Some? then Index(c).value else 0);
    IndexInvertsCode(c, v as int);
    hide Index, Code;
  }

  function Second(a: Byte, b: Byte): (r: Byte)
    ensures r < 64
  {
    ((a & 3) << 4) | (b >> 4)
  }

  function Third(b: Byte, c: Byte): (r: Byte)
    ensures r < 64
  {
    ((b & 15) << 2) | (c >> 6)
  }

  function First(a: Byte): (r: Byte)
    ensures r < 64
  {
    a >> 2
  }

  function Fourth(c: Byte): (r: Byte)
    ensures r < 64
  {
    c & 63
  }

  function OctetA(a: Byte, b: Byte): Byte {
    (a << 2) | ((b & 48) >> 4)
  }

  function OctetB(b: Byte, c: Byte): Byte {
    ((b & 15) << 4) | ((c & 60) >> 2)
  }

  function OctetC(c: Byte, d: Byte): Byte {
    ((c & 3) << 6) | d
  }

  lemma GroupDigits(a: Byte, b: Byte, c: Byte)
    ensures var n := Group(a, b, c);
            && Digit(n, 0) == First(a) && Digit(n, 1) == Second(a, b)
            && Digit(n, 2) == Third(b, c) && Digit(n, 3) == Fourth(c)
  {
  }

  lemma QuantumOctets(a: Byte, b: Byte, c: Byte, d: Byte)
    requires a < 64 && b < 64 && c < 64 && d < 64
    ensures var n := Quantum(a, b, c, d);
            Octet(n, 0) == OctetA(a, b) && Octet(n, 1) == OctetB(b, c) && Octet(n, 2) == OctetC(c, d)
  {
  }

  lemma OctetsRecovered(a: Byte, b: Byte, c: Byte)
    ensures OctetA(First(a), Second(a, b)) == a
    ensures OctetB(Second(a, b), Third(b, c)) == b
    ensures OctetC(Third(b, c), Fourth(c)) == c
  {
  }

  lemma SextetsRecovered(a: Byte, b: Byte, c: Byte, d: Byte)
    requires a < 64 && b < 64 && c < 64 && d < 64
    ensures First(OctetA(a, b)) == a
    ensures Second(OctetA(a, b), OctetB(b, c)) == b
    ensures Third(OctetB(b, c), OctetC(c, d)) == c
    ensures Fourth(OctetC(c, d)) == d
    ensures b & 15 == 0 ==> Second(OctetA(a, b), 0) == b
    ensures c & 3 == 0 ==> Third(OctetB(b, c), 0) == c
  {
  }

  // ---------------------------------------------------------------------------------------------
  // Encoding one octet at a time.

  /** The 6-bit values settled by the octets read so far. */
  function Settled(x: seq<Byte>): (r: seq<Byte>)
    ensures Sextets(r)
  {
    if x == [] then []
    else if |x| == 1 then [First(x[0])]
    else if |x| == 2 then [First(x[0]), Second(x[0], x[1])]
    else [First(x[0]), Second(x[0], x[1]), Third(x[1], x[2]), Fourth(x[2])] + Settled(x[3..])
  }

  /** The 6-bit values settled by b after x. */
  function NextValues(x: seq<Byte>, b: Byte): (r: seq<Byte>)
    ensures Sextets(r)
  {
    if |x| % 3 == 0 then [First(b)]
    else if |x| % 3 == 1 then [Second(x[|x| - 1], b)]
    else [Third(x[|x| - 1], b), Fourth(b)]
  }

  lemma NextValuesTail(x: seq<Byte>, b: Byte)
    requires |x| >= 3
    ensures NextValues(x, b) == NextValues(x[3..], b)
  {
    hide First, Second, Third, Fourth;
  }

  lemma SettledUnfold(x: seq<Byte>)
    requires |x| >= 3
    ensures Settled(x) == [First(x[0]), Second(x[0], x[1]), Third(x[1], x[2]), Fourth(x[2])] + Settled(x[3..])
  {
    hide First, Second, Third, Fourth;
  }

  lemma SettledShort(x: seq<Byte>, b: Byte)
    requires |x| < 3
    ensures Settled(x + [b]) == Settled(x) + NextValues(x, b)
  {
    hide Settled, NextValues;
    if x == [] {
      SettledFirst(b);
    } else if |x| == 1 {
      SettledSecond(x[0], b);
      assert x == [x[0]];
    } else {
      SettledThird(x[0], x[1], b);
      assert x == [x[0], x[1]];
    }
  }

  lemma SettledFirst(a: Byte)
    ensures Settled([] + [a]) == Settled([]) + NextValues([], a)
  {
    SettledFew(a, a, a);
    hide Settled, First;
    assert [] + [a] == [a] && [] + [First(a)] == [First(a)];
  }

  lemma SettledSecond(a: Byte, b: Byte)
    ensures Settled([a] + [b]) == Settled([a]) + NextValues([a], b)
  {
    SettledFew(a, b, b);
    hide Settled, First, Second;
    assert [a] + [b] == [a, b] && NextValues([a], b) == [Second(a, b)];
    hide NextValues;
    assert [First(a)] + [Second(a, b)] == [First(a), Second(a, b)];
  }

  lemma SettledThird(a: Byte, b: Byte, c: Byte)
    ensures Settled([a, b] + [c]) == Settled([a, b]) + NextValues([a, b], c)
  {
    SettledFew(a, b, c);
    hide Settled, First, Second, Third, Fourth;
    assert [a, b] + [c] == [a, b, c] && NextValues([a, b], c) == [Third(b, c), Fourth(c)];
    hide NextValues;
    assert [First(a), Second(a, b)] + [Third(b, c), Fourth(c)] == [First(a), Second(a, b), Third(b, c), Fourth(c)];
  }

  lemma SettledFew(a: Byte, b: Byte, c: Byte)
    ensures Settled([]) == [] && Settled([a]) == [First(a)] && Settled([a, b]) == [First(a), Second(a, b)]
    ensures Settled([a, b, c]) == [First(a), Second(a, b), Third(b, c), Fourth(c)]
  {
    hide First, Second, Third, Fourth;
    assert [a, b, c][3..] == [];
  }

  lemma {:induction false} SettledSnoc(x: seq<Byte>, b: Byte)
    ensures Settled(x + [b]) == Settled(x) + NextValues(x, b)
  {
    hide First, Second, Third, Fourth, Settled, NextValues;
    if |x| < 3 {
      SettledShort(x, b);
    } else {
      SettledUnfold(x);
      SettledUnfold(x + [b]);
      NextValuesTail(x, b);
      assert (x + [b])[3..] == x[3..] + [b];
      SettledSnoc(x[3..], b);
    }
  }

  function Symbols(v: seq<Byte>): (r: Text)
    requires Sextets(v)
    ensures |r| == |v| && forall k | 0 <= k < |v| :: r[k] == Symbol(v[k])
  {
    seq(|v|, k requires 0 <= k < |v| => Symbol(v[k]))
  }

  lemma SymbolsConcat(a: seq<Byte>, b: seq<Byte>)
    requires Sextets(a) && Sextets(b)
    ensures Sextets(a + b) && Symbols(a + b) == Symbols(a) + Symbols(b)
  {
    hide Symbol;
  }

  function SettledText(x: seq<Byte>): Text {
    Symbols(Settled(x))
  }

  /** The symbols one more octet settles. */
  lemma NextSymbols(x: seq<Byte>, b: Byte)
    ensures SettledText(x + [b]) == SettledText(x) +
            if |x| % 3 == 0 then [Symbol(First(b))]
            else if |x| % 3 == 1 then [Symbol(Second(x[|x| - 1], b))]
            else [Symbol(Third(x[|x| - 1], b)), Symbol(Fourth(b))]
  {
    hide First, Second, Third, Fourth, Settled, Symbol;
    SettledSnoc(x, b);
    SymbolsConcat(Settled(x), Settled(x + [b])[|Settled(x)|..]);
  }

  function Tail(x: seq<Byte>): Text {
    if |x| % 3 == 0 then []
    else if |x| % 3 == 1 then [Symbol(Second(x[|x| - 1], 0)), PAD, PAD]
    else [Symbol(Third(x[|x| - 1], 0)), PAD]
  }

  lemma SettledTextUnfold(x: seq<Byte>)
    ensures SettledText(x) ==
            if x == [] then []
            else if |x| == 1 then [Symbol(First(x[0]))]
            else if |x| == 2 then [Symbol(First(x[0])), Symbol(Second(x[0], x[1]))]
            else [Symbol(First(x[0])), Symbol(Second(x[0], x[1])), Symbol(Third(x[1], x[2])), Symbol(Fourth(x[2]))]
                 + SettledText(x[3..])
  {
    hide First, Second, Third, Fourth, Symbol;
  }

  lemma EncodingUnfold(x: seq<Byte>)
    requires x != []
    ensures Encoding(x) ==
            if |x| == 1 then [Symbol(First(x[0])), Symbol(Second(x[0], 0)), PAD, PAD]
            else if |x| == 2 then [Symbol(First(x[0])), Symbol(Second(x[0], x[1])), Symbol(Third(x[1], 0)), PAD]
            else [Symbol(First(x[0])), Symbol(Second(x[0], x[1])), Symbol(Third(x[1], x[2])), Symbol(Fourth(x[2]))]
                 + Encoding(x[3..])
  {
    hide First, Second, Third, Fourth, Symbol, Group, Digit;
    GroupDigits(x[0], if |x| > 1 then x[1] else 0, if |x| > 2 then x[2] else 0);
  }

  lemma {:induction false} EncodingIsSettledAndTail(x: seq<Byte>)
    ensures Encoding(x) == SettledText(x) + Tail(x)
  {
    hide First, Second, Third, Fourth, Symbol, SettledText, Encoding, Tail;
    SettledTextUnfold(x);
    TailUnfold(x);
    if x == [] {
      NothingEncoded();
    } else {
      EncodingUnfold(x);
      if |x| >= 3 {
        EncodingIsSettledAndTail(x[3..]);
      }
    }
  }

  lemma TailUnfold(x: seq<Byte>)
    ensures Tail(x) ==
            if x == [] then []
            else if |x| == 1 then [Symbol(Second(x[0], 0)), PAD, PAD]
            else if |x| == 2 then [Symbol(Third(x[1], 0)), PAD]
            else Tail(x[3..])
  {
    hide Second, Third, Symbol;
  }

  lemma NothingEncoded()
    ensures Encoding([]) == []
  {
  }

  // ---------------------------------------------------------------------------------------------
  // Decoding one symbol at a time.

  lemma OctetsLong(v: seq<Byte>)
    requires Sextets(v) && |v| >= 4
    ensures Octets(v) == [OctetA(v[0], v[1]), OctetB(v[1], v[2]), OctetC(v[2], v[3])] + Octets(v[4..])
  {
    hide OctetA, OctetB, OctetC, Quantum, Octet;
    QuantumOctets(v[0], v[1], v[2], v[3]);
  }

  lemma OctetsShort(v: seq<Byte>)
    requires Sextets(v) && |v| < 4
    ensures |v| < 2 ==> Octets(v) == []
    ensures |v| == 2 ==> Octets(v) == [OctetA(v[0], v[1])]
    ensures |v| == 3 ==> Octets(v) == [OctetA(v[0], v[1]), OctetB(v[1], v[2])]
  {
    hide OctetA, OctetB, OctetC, Quantum, Octet;
    if |v| >= 2 {
      QuantumOctets(v[0], v[1], if |v| > 2 then v[2] else 0, 0);
    }
  }

  /** The octet completed by the 6-bit value c after v. */
  function NextOctets(v: seq<Byte>, c: Byte): seq<Byte> {
    if |v| % 4 == 0 then []
    else if |v| % 4 == 1 then [OctetA(v[|v| - 1], c)]
    else if |v| % 4 == 2 then [OctetB(v[|v| - 1], c)]
    else [OctetC(v[|v| - 1], c)]
  }

  lemma NextOctetsTail(v: seq<Byte>, c: Byte)
    requires |v| >= 4
    ensures NextOctets(v, c) == NextOctets(v[4..], c)
  {
    hide OctetA, OctetB, OctetC;
  }

  lemma OctetsFew(a: Byte, b: Byte, c: Byte, d: Byte)
    requires a < 64 && b < 64 && c < 64 && d < 64
    ensures Sextets([a, b, c, d]) && Sextets([a, b, c]) && Sextets([a, b]) && Sextets([a]) && Sextets([])
    ensures Octets([]) == [] == Octets([a]) && Octets([a, b]) == [OctetA(a, b)]
    ensures Octets([a, b, c]) == [OctetA(a, b), OctetB(b, c)]
    ensures Octets([a, b, c, d]) == [OctetA(a, b), OctetB(b, c), OctetC(c, d)]
  {
    hide Octets, OctetA, OctetB, OctetC;
    assert forall v | v in [a, b, c, d] :: v < 64;
    OctetsShort([]);
    OctetsShort([a]);
    OctetsShort([a, b]);
    OctetsShort([a, b, c]);
    OctetsLong([a, b, c, d]);
    assert [a, b, c, d][4..] == [];
  }

  lemma NextOctetsFew(a: Byte, b: Byte, c: Byte, d: Byte)
    ensures NextOctets([], a) == [] && NextOctets([a], b) == [OctetA(a, b)]
    ensures NextOctets([a, b], c) == [OctetB(b, c)] && NextOctets([a, b, c], d) == [OctetC(c, d)]
  {
    hide OctetA, OctetB, OctetC;
  }

  lemma OctetsOne(a: Byte, b: Byte)
    requires a < 64 && b < 64
    ensures Sextets([a] + [b]) && Octets([a] + [b]) == Octets([a]) + NextOctets([a], b)
    ensures Octets([] + [a]) == Octets([]) + NextOctets([], a)
  {
    OctetsFew(a, b, b, b);
    NextOctetsFew(a, b, b, b);
    hide Octets, NextOctets, OctetA, OctetB, OctetC;
    assert [] + [a] == [a] && [a] + [b] == [a, b];
    assert [] + [OctetA(a, b)] == [OctetA(a, b)];
  }

  lemma OctetsTwo(a: Byte, b: Byte, c: Byte)
    requires a < 64 && b < 64 && c < 64
    ensures Sextets([a, b] + [c]) && Octets([a, b] + [c]) == Octets([a, b]) + NextOctets([a, b], c)
  {
    OctetsFew(a, b, c, c);
    NextOctetsFew(a, b, c, c);
    hide Octets, NextOctets, OctetA, OctetB, OctetC;
    assert [a, b] + [c] == [a, b, c] && [OctetA(a, b)] + [OctetB(b, c)] == [OctetA(a, b), OctetB(b, c)];
  }

  lemma OctetsThree(a: Byte, b: Byte, c: Byte, d: Byte)
    requires a < 64 && b < 64 && c < 64 && d < 64
    ensures Sextets([a, b, c] + [d]) && Octets([a, b, c] + [d]) == Octets([a, b, c]) + NextOctets([a, b, c], d)
  {
    OctetsFew(a, b, c, d);
    NextOctetsFew(a, b, c, d);
    hide Octets, NextOctets, OctetA, OctetB, OctetC;
    assert [a, b, c] + [d] == [a, b, c, d];
    assert [OctetA(a, b), OctetB(b, c)] + [OctetC(c, d)] == [OctetA(a, b), OctetB(b, c), OctetC(c, d)];
  }

  lemma OctetsSnocShort(v: seq<Byte>, c: Byte)
    requires Sextets(v) && c < 64 && |v| < 4
    ensures Sextets(v + [c]) && Octets(v + [c]) == Octets(v) + NextOctets(v, c)
  {
    hide Octets, NextOctets;
    if v == [] {
      OctetsOne(c, c);
    } else if |v| == 1 {
      OctetsOne(v[0], c);
      assert v == [v[0]];
    } else if |v| == 2 {
      OctetsTwo(v[0], v[1], c);
      assert v == [v[0], v[1]];
    } else {
      OctetsThree(v[0], v[1], v[2], c);
      assert v == [v[0], v[1], v[2]];
    }
  }

  lemma {:induction false} OctetsSnoc(v: seq<Byte>, c: Byte)
    requires Sextets(v) && c < 64
    ensures Sextets(v + [c]) && Octets(v + [c]) == Octets(v) + NextOctets(v, c)
  {
    hide Octets, OctetA, OctetB, OctetC, NextOctets;
    if |v| < 4 {
      OctetsSnocShort(v, c);
    } else {
      OctetsLong(v);
      OctetsLong(v + [c]);
      NextOctetsTail(v, c);
      assert (v + [c])[4..] == v[4..] + [c];
      OctetsSnoc(v[4..], c);
    }
  }

  // ---------------------------------------------------------------------------------------------
  // The code.

  ghost predicate EncodeTable(b64: array<nat>)
    reads b64
  {
    b64.Length == 64 && forall n | 0 <= n < 64 :: b64[n] == Code(n)
  }

  ghost predicate DecodeEntry(entry: Option<Byte>, value: Option<int>) {
    if value.Some? then entry.Some? && entry.value as int == value.value else entry.None?
  }

  ghost predicate DecodeTable(s64: array<Option<Byte>>)
    reads s64
  {
    s64.Length == 123 && forall c | 0 <= c < 123 :: DecodeEntry(s64[c], Index(c))
  }

  lemma CodeFormula(n: nat)
    requires n < 64
    ensures Code(n) == (if n < 26 then n + 65 else if n < 52 then n + 71 else if n < 62 then n - 4
                        else (((n - 59) as Byte) | 43) as int)
  {
    assert 3 as Byte | 43 == 43 && 4 as Byte | 43 == 47;
  }

  /** The entry for char code c once the values below i are in the table. */
  ghost predicate Below(entry: Option<Byte>, c: nat, i: int) {
    DecodeEntry(entry, if Index(c).Some? && Index(c).value < i then Index(c) else None)
  }

  lemma EntryBelow(entry: Option<Byte>, c: nat, i: int)
    ensures i == 0 ==> Below(None, c, i)
    ensures Below(entry, c, i) && 0 <= i < 64 ==> Below(if c == Code(i) then Some(i as Byte) else entry, c, i + 1)
    ensures Below(entry, c, i) && i == 64 ==> DecodeEntry(entry, Index(c))
  {
    if 0 <= i < 64 {
      IndexInvertsCode(c, i);
      hide Code, Index;
      ByteInt(i as Byte, i);
    }
  }

  lemma NothingBelow(c: nat)
    ensures Below(None, c, 0)
  {
    EntryBelow(None, c, 0);
  }

  /** One turn of the table loop: b64[i] and its inverse. */
  method FillEntry(b64: array<nat>, s64: array<Option<Byte>>, i: nat)
    requires i < 64 && b64.Length == 64 && s64.Length == 123
    requires forall n | 0 <= n < i :: b64[n] == Code(n)
    requires forall c | 0 <= c < 123 :: Below(s64[c], c, i)
    modifies b64, s64
    ensures forall n | 0 <= n < i + 1 :: b64[n] == Code(n)
    ensures forall c | 0 <= c < 123 :: Below(s64[c], c, i + 1)
  {
    hide Code, Below;
    CodeFormula(i);
    IndexInvertsCode(0, i);
    ghost var before := s64[..];
    var code := if i < 26 then i + 65 else if i < 52 then i + 71 else if i < 62 then i - 4
                else (((i - 59) as Byte) | 43) as int;
    assert code == Code(i);
    b64[i] := code;
    s64[code] := Some(i as Byte);
    forall c | 0 <= c < 123
      ensures Below(s64[c], c, i + 1)
    {
      assert s64[c] == if c == Code(i) then Some(i as Byte) else before[c];
      EntryBelow(before[c], c, i);
    }
  }

  /** The table loop: code points 65..90, 97..122, 48..57, 43, 47 and their inverse. */
  method BuildTables() returns (b64: array<nat>, s64: array<Option<Byte>>)
    ensures EncodeTable(b64) && DecodeTable(s64)
  {
    b64 := new nat[64](_ => 0);
    s64 := new Option<Byte>[123](_ => None);
    hide Code, Below, DecodeEntry;
    var i := 0;
    forall c | 0 <= c < 123
      ensures Below(None, c, 0)
    {
      NothingBelow(c);
    }
    while i < 64
      invariant 0 <= i <= 64 && fresh(b64) && fresh(s64)
      invariant forall n | 0 <= n < i :: b64[n] == Code(n)
      invariant forall c | 0 <= c < 123 :: Below(s64[c], c, i)
    {
      FillEntry(b64, s64, i);
      i := i + 1;
    }
    forall c | 0 <= c < 123
      ensures DecodeEntry(s64[c], Index(c))
    {
      EntryBelow(s64[c], c, 64);
    }
  }

  /** Assignment to index i of a growing JavaScript array. */
  function Put(chunk: Text, i: nat, c: nat): Text
    requires i <= |chunk|
  {
    if i < |chunk| then chunk[i := c] else chunk + [c]
  }

  lemma PutAppends(chunk: Text, i: nat, c: nat)
    requires i <= |chunk|
    ensures |Put(chunk, i, c)| == if i < |chunk| then |chunk| else i + 1
    ensures Put(chunk, i, c)[..i] == chunk[..i] && Put(chunk, i, c)[i..i + 1] == [c]
  {
  }

  lemma PutTwo(chunk: Text, i: nat, c: nat, d: nat)
    requires i <= |chunk|
    ensures i + 1 <= |Put(chunk, i, c)|
    ensures var r := Put(Put(chunk, i, c), i + 1, d);
            |r| == (if i + 2 <= |chunk| then |chunk| else i + 2) && r[..i] == chunk[..i] && r[i..i + 2] == [c, d]
  {
  }

  function Join(parts: seq<Text>): Text {
    if parts == [] then [] else Join(parts[..|parts| - 1]) + parts[|parts| - 1]
  }

  lemma JoinSnoc(parts: seq<Text>, part: Text)
    ensures Join(parts + [part]) == Join(parts) + part
  {
    assert (parts + [part])[..|parts|] == parts;
  }

  function Flushed(parts: Option<seq<Text>>): Text {
    if parts.Some? then Join(parts.value) else []
  }

  /** The bits held in t between octets, in place for the next 6-bit value. */
  ghost predicate Holds(t: Byte, x: seq<Byte>) {
    && (|x| % 3 == 1 ==> t == Second(x[|x| - 1], 0))
    && (|x| % 3 == 2 ==> t == Third(x[|x| - 1], 0))
  }

  const FLUSH_AT := 8192

  /**
   What makes the flush right: the chunk is only ever flushed with exactly FLUSH_AT symbols, all
   of them current, so the reused array never shows symbols of an earlier round.
   */
  ghost predicate ChunkOk(parts: Option<seq<Text>>, chunk: Text, i: nat, j: nat) {
    && i % 4 == j < 3 && i < FLUSH_AT
    && i <= |chunk| == if parts.Some? then FLUSH_AT else i
  }

  /** The alignment of the two indices: the chunk fills up exactly when a group of octets ends. */
  lemma NeverOvershoots(i: nat, n: nat)
    requires i % 4 == n % 3 && i < FLUSH_AT
    ensures var i' := i + if n % 3 == 2 then 2 else 1;
            && i' % 4 == (n + 1) % 3 == (n % 3 + 1) % 3 && i' <= FLUSH_AT
            && (i' == FLUSH_AT ==> (n + 1) % 3 == 0)
  {
  }

  lemma HeldBits(a: Byte, b: Byte)
    ensures (a & 3) << 4 == Second(a, 0) && (a & 15) << 2 == Third(a, 0)
    ensures Second(a, 0) | (b >> 4) == Second(a, b) && Third(a, 0) | (b >> 6) == Third(a, b)
  {
  }

  /** b64[v]. */
  method Look(b64: array<nat>, v: Byte) returns (c: nat)
    requires EncodeTable(b64) && v < 64
    ensures c == Symbol(v)
  {
    SmallInt(v);
    c := b64[v];
  }

  /** The switch of b64Encode: one more octet b after x. */
  method EncodeOctet(b64: array<nat>, b: Byte, ghost x: seq<Byte>, chunk: Text, i: nat, j: nat, t: Byte)
    returns (chunk': Text, i': nat, j': nat, t': Byte)
    requires EncodeTable(b64)
    requires j == |x| % 3 && Holds(t, x) && i <= |chunk|
    ensures j' == (j + 1) % 3 && i' == i + if j == 2 then 2 else 1
    ensures Holds(t', x + [b])
    ensures |chunk'| == if i' <= |chunk| then |chunk| else i'
    ensures SettledText(x + [b]) == SettledText(x) + chunk'[i..i']
    ensures chunk'[..i] == chunk[..i]
  {
    hide Symbol, First, Second, Third, Fourth, SettledText, EncodeTable, Put, Holds;
    NextSymbols(x, b);
    if j == 0 {
      FirstBits(x, b);
      var c := Look(b64, b >> 2);
      PutAppends(chunk, i, c);
      chunk', i' := Put(chunk, i, c), i + 1;
      t' := (b & 3) << 4;
      j' := 1;
    } else if j == 1 {
      SecondBits(x, b, t);
      var c := Look(b64, t | (b >> 4));
      PutAppends(chunk, i, c);
      chunk', i' := Put(chunk, i, c), i + 1;
      t' := (b & 15) << 2;
      j' := 2;
    } else {
      ThirdBits(x, b, t);
      var c := Look(b64, t | (b >> 6));
      var d := Look(b64, b & 63);
      PutTwo(chunk, i, c, d);
      chunk', i' := Put(chunk, i, c), i + 1;
      chunk', i' := Put(chunk', i', d), i' + 1;
      t' := t;
      j' := 0;
    }
  }

  lemma FirstBits(x: seq<Byte>, b: Byte)
    requires |x| % 3 == 0
    ensures b >> 2 == First(b) && Holds((b & 3) << 4, x + [b])
  {
    HeldBits(b, b);
    hide Second;
  }

  lemma SecondBits(x: seq<Byte>, b: Byte, t: Byte)
    requires |x| % 3 == 1 && Holds(t, x)
    ensures t | (b >> 4) == Second(x[|x| - 1], b) && Holds((b & 15) << 2, x + [b])
  {
    HeldBits(x[|x| - 1], b);
    HeldBits(b, b);
    hide Second, Third;
  }

  lemma ThirdBits(x: seq<Byte>, b: Byte, t: Byte)
    requires |x| % 3 == 2 && Holds(t, x)
    ensures t | (b >> 6) == Third(x[|x| - 1], b) && b & 63 == Fourth(b) && Holds(t, x + [b])
  {
    HeldBits(x[|x| - 1], b);
  }

  /** Flushing a chunk of which every symbol is current loses and adds nothing. */
  method FlushFull(parts: Option<seq<Text>>, chunk: Text, i: nat) returns (parts': Option<seq<Text>>, i': nat)
    requires i <= |chunk| && (i >= FLUSH_AT ==> |chunk| == i)
    ensures if i >= FLUSH_AT then parts'.Some? && i' == 0 else parts' == parts && i' == i
    ensures Flushed(parts') + chunk[..i'] == Flushed(parts) + chunk[..i]
  {
    parts', i' := parts, i;
    if i > FLUSH_AT - 1 {
      var soFar := if parts.Some? then parts.value else [];
      JoinSnoc(soFar, chunk);
      assert chunk[..i] == chunk;
      parts' := Some(soFar + [chunk]);
      i' := 0;
    }
  }

  /** buffer[k]; outside the buffer that is undefined, which the bit operators take for 0. */
  function At(buffer: seq<Byte>, k: int): Byte {
    if 0 <= k < |buffer| then buffer[k] else 0
  }

  /** The octets from start to end. */
  function Input(buffer: seq<Byte>, start: int, end: int): (x: seq<Byte>)
    ensures |x| == if start < end then end - start else 0
  {
    seq(if start < end then end - start else 0, k requires k >= 0 => At(buffer, start + k))
  }

  /** Octets outside the buffer are zero. */
  lemma InputAt(buffer: seq<Byte>, start: int, end: int, k: nat)
    requires k < end - start
    ensures Input(buffer, start, end)[k] == if 0 <= start + k < |buffer| then buffer[start + k] else 0
  {
    assert Input(buffer, start, end)[k] == At(buffer, start + k);
  }

  lemma InputSnoc(buffer: seq<Byte>, start: int, at: int)
    requires start <= at
    ensures Input(buffer, start, at + 1) == Input(buffer, start, at) + [At(buffer, at)]
  {
  }

  /** The loop of b64Encode. */
  method EncodeOctets(b64: array<nat>, buffer: array<Byte>, start: int, end: int)
    returns (parts: Option<seq<Text>>, chunk: Text, i: nat, j: nat, t: Byte)
    requires EncodeTable(b64)
    ensures var x := Input(buffer[..], start, end);
            && j == |x| % 3 && Holds(t, x)
            && i <= |chunk| && (parts.None? ==> |chunk| == i)
            && Flushed(parts) + chunk[..i] == SettledText(x)
  {
    hide SettledText, Holds, Flushed, EncodeTable, Input;
    parts, chunk := None, [];
    i, j, t := 0, 0, 0;
    var at := start;
    EmptyStart(buffer[..], start);
    while at < end
      invariant start <= at && (at <= end || at == start)
      invariant j == |Input(buffer[..], start, at)| % 3 && ChunkOk(parts, chunk, i, j)
      invariant Holds(t, Input(buffer[..], start, at))
      invariant Flushed(parts) + chunk[..i] == SettledText(Input(buffer[..], start, at))
    {
      var b := if 0 <= at < buffer.Length then buffer[at] else 0;
      ghost var x := Input(buffer[..], start, at);
      InputSnoc(buffer[..], start, at);
      at := at + 1;
      ghost var i0, chunk0 := i, chunk;
      chunk, i, j, t := EncodeOctet(b64, b, x, chunk, i, j, t);
      NeverOvershoots(i0, |x|);
      assert Flushed(parts) + chunk[..i] == Flushed(parts) + chunk0[..i0] + chunk[i0..i];
      parts, i := FlushFull(parts, chunk, i);
    }
    NoInput(buffer[..], start, end, at);
  }

  lemma NoInput(buffer: seq<Byte>, start: int, end: int, at: int)
    requires start <= at && (at <= end || at == start) && at >= end
    ensures Input(buffer, start, at) == Input(buffer, start, end)
  {
  }

  lemma EmptyStart(buffer: seq<Byte>, start: int)
    ensures Input(buffer, start, start) == []
    ensures SettledText([]) == [] == Flushed(None) && Holds(0, [])
  {
  }

  /** The end of b64Encode: the bits held, and the padding. */
  method PadTail(b64: array<nat>, ghost x: seq<Byte>, chunk: Text, i: nat, j: nat, t: Byte)
    returns (chunk': Text, i': nat)
    requires EncodeTable(b64) && j == |x| % 3 && Holds(t, x) && i <= |chunk|
    ensures i' <= |chunk'| && chunk'[..i'] == chunk[..i] + Tail(x)
  {
    hide Symbol, Second, Third, Put, EncodeTable;
    chunk', i' := chunk, i;
    ghost var out := chunk[..i];
    if j != 0 {
      HeldIsSextet(t, x);
      var c := Look(b64, t);
      PutTwo(chunk, i, c, PAD);
      chunk', i' := Put(chunk', i', c), i' + 1;
      chunk', i' := Put(chunk', i', PAD), i' + 1;
      assert chunk'[..i'] == out + [c, PAD];
      if j == 1 {
        PutAppends(chunk', i', PAD);
        chunk', i' := Put(chunk', i', PAD), i' + 1;
        assert chunk'[..i'] == out + [c, PAD] + [PAD];
      }
    }
  }

  lemma HeldIsSextet(t: Byte, x: seq<Byte>)
    requires Holds(t, x) && |x| % 3 != 0
    ensures t < 64
  {
  }

  /** Whatever the length of the input and however often the chunk is flushed. */
  method B64Encode(b64: array<nat>, buffer: array<Byte>, start: int, end: int) returns (text: Text)
    requires EncodeTable(b64)
    ensures text == Encoding(Input(buffer[..], start, end))
  {
    hide Holds, Tail, SettledText, Encoding, Join, EncodeTable, Input;
    ghost var x := Input(buffer[..], start, end);
    var parts, chunk, i, j, t := EncodeOctets(b64, buffer, start, end);
    EncodingIsSettledAndTail(x);
    ghost var before := Flushed(parts) + chunk[..i];
    chunk, i := PadTail(b64, x, chunk, i, j, t);
    assert Flushed(parts) + chunk[..i] == before + Tail(x);
    if parts.Some? {
      var all := parts.value;
      if i != 0 {
        JoinSnoc(all, chunk[..i]);
        all := all + [chunk[..i]];
      }
      return Join(all);
    }
    return chunk[..i];
  }

  /** The switch of b64Decode: one more symbol of value c after those of v. */
  method DecodeSymbol(c: Byte, ghost v: seq<Byte>, buffer: seq<Byte>, j: nat, t: Byte)
    returns (buffer': seq<Byte>, j': nat, t': Byte)
    requires j == |v| % 4 && (j > 0 ==> t == v[|v| - 1])
    ensures buffer' == buffer + NextOctets(v, c)
    ensures j' == (j + 1) % 4 && (j' > 0 ==> t' == c)
  {
    UnpackBits(t, c);
    hide OctetA, OctetB, OctetC;
    buffer', t' := buffer, t;
    if j == 0 {
      t' := c;
      j' := 1;
    } else if j == 1 {
      buffer' := buffer + [(t << 2) | ((c & 48) >> 4)];
      t' := c;
      j' := 2;
    } else if j == 2 {
      buffer' := buffer + [((t & 15) << 4) | ((c & 60) >> 2)];
      t' := c;
      j' := 3;
    } else {
      buffer' := buffer + [((t & 3) << 6) | c];
      j' := 0;
    }
  }

  lemma NextMod(i: nat)
    ensures (i + 1) % 4 == (i % 4 + 1) % 4
  {
  }

  method B64Decode(s64: array<Option<Byte>>, s: Text) returns (r: Result<seq<Byte>, ()>)
    requires DecodeTable(s64)
    ensures r == Decoding(s)
  {
    hide Value, Octets, NextOctets;
    var buffer: seq<Byte> := [];
    var j, t, i := 0, 0 as Byte, 0;
    NoOctets();
    while i < |s|
      invariant 0 <= i <= |s| && PayloadEnd(s, 0) == PayloadEnd(s, i)
      invariant AllSymbols(s[..i]) && buffer == Octets(Values(s[..i])) && j == i % 4
      invariant j > 0 ==> t == Values(s[..i])[i - 1]
    {
      var code := s[i];
      if code == PAD && j > 1 {
        break;
      }
      ghost var payload := s[..PayloadEnd(s, 0)];
      assert i < |payload| && payload[i] == code;
      Entry(s64, code);
      if code >= s64.Length || s64[code].None? {
        return Err(());
      }
      var c := s64[code].value;
      ValuesSnoc(s, i, c);
      NextMod(i);
      buffer, j, t := DecodeSymbol(c, Values(s[..i]), buffer, j, t);
      i := i + 1;
    }
    if j == 1 {
      return Err(());
    }
    return Ok(buffer);
  }

  lemma UnpackBits(t: Byte, c: Byte)
    ensures (t << 2) | ((c & 48) >> 4) == OctetA(t, c)
    ensures ((t & 15) << 4) | ((c & 60) >> 2) == OctetB(t, c)
    ensures ((t & 3) << 6) | c == OctetC(t, c)
  {
  }

  lemma NoOctets()
    ensures Octets(Values([])) == []
  {
    hide Value;
  }

  /** s64[code], which is undefined past the end of the table. */
  lemma Entry(s64: array<Option<Byte>>, code: nat)
    requires DecodeTable(s64)
    ensures if code < s64.Length then s64[code] == Value(code) else Value(code).None?
  {
    if code < s64.Length && Index(code).Some? {
      assert DecodeEntry(s64[code], Index(code));
      SameByte(s64[code].value, Index(code).value);
    }
  }

  lemma SameByte(b: Byte, n: int)
    requires b as int == n && 0 <= n < 256
    ensures b == n as Byte
  {
    ThereAndBack(b);
  }

  lemma ValuesSnoc(s: Text, i: nat, c: Byte)
    requires i < |s| && AllSymbols(s[..i]) && Value(s[i]) == Some(c)
    ensures AllSymbols(s[..i + 1])
    ensures Values(s[..i + 1]) == Values(s[..i]) + [c]
    ensures Octets(Values(s[..i + 1])) == Octets(Values(s[..i])) + NextOctets(Values(s[..i]), c)
  {
    hide Octets, NextOctets, Value;
    assert s[..i + 1] == s[..i] + [s[i]];
    assert Values(s[..i + 1]) == Values(s[..i]) + [c];
    OctetsSnoc(Values(s[..i]), c);
  }

  // ---------------------------------------------------------------------------------------------
  // Round trips.

  /** All 6-bit values of an encoding, the last one filled with zero bits. */
  function Full(x: seq<Byte>): (r: seq<Byte>)
    ensures Sextets(r)
  {
    if x == [] then []
    else if |x| == 1 then [First(x[0]), Second(x[0], 0)]
    else if |x| == 2 then [First(x[0]), Second(x[0], x[1]), Third(x[1], 0)]
    else [First(x[0]), Second(x[0], x[1]), Third(x[1], x[2]), Fourth(x[2])] + Full(x[3..])
  }

  function Pads(n: nat): Text {
    if n % 4 == 2 then [PAD, PAD] else if n % 4 == 3 then [PAD] else []
  }

  lemma PadsRepeat(n: nat)
    ensures Pads(n + 4) == Pads(n)
  {
  }

  /** What follows the payload of an encoding only depends on the last group. */
  lemma {:induction false} EncodingIsFull(x: seq<Byte>)
    ensures Encoding(x) == Symbols(Full(x)) + Pads(|Full(x)|)
  {
    hide First, Second, Third, Fourth, Symbol, Encoding;
    if x == [] {
      NothingEncoded();
    } else {
      EncodingUnfold(x);
      if |x| >= 3 {
        EncodingIsFull(x[3..]);
        FullUnfold(x);
      }
    }
  }

  lemma NextMod4(n: nat)
    ensures (n + 4) % 4 == n % 4
  {
  }

  lemma {:induction false} FullLength(x: seq<Byte>)
    ensures |Full(x)| % 4 != 1
  {
    if |x| < 3 {
    } else {
      FullLong(x);
      hide Full;
      FullLength(x[3..]);
      NextMod4(|Full(x[3..])|);
    }
  }

  lemma FullLong(x: seq<Byte>)
    requires |x| >= 3
    ensures Full(x) == [First(x[0]), Second(x[0], x[1]), Third(x[1], x[2]), Fourth(x[2])] + Full(x[3..])
  {
    hide First, Second, Third, Fourth;
  }

  lemma FullUnfold(x: seq<Byte>)
    requires |x| >= 3
    ensures Symbols(Full(x)) ==
            [Symbol(First(x[0])), Symbol(Second(x[0], x[1])), Symbol(Third(x[1], x[2])), Symbol(Fourth(x[2]))]
            + Symbols(Full(x[3..]))
    ensures Pads(|Full(x)|) == Pads(|Full(x[3..])|)
  {
    hide Full, First, Second, Third, Fourth, Symbol, Pads;
    FullLong(x);
    SymbolsConcat([First(x[0]), Second(x[0], x[1]), Third(x[1], x[2]), Fourth(x[2])], Full(x[3..]));
    PadsRepeat(|Full(x[3..])|);
  }

  lemma {:induction false} OctetsOfFull(x: seq<Byte>)
    ensures Octets(Full(x)) == x
  {
    hide First, Second, Third, Fourth, OctetA, OctetB, OctetC, Octets;
    if x == [] {
      OctetsShort(Full(x));
    } else {
      OctetsRecovered(x[0], if |x| > 1 then x[1] else 0, if |x| > 2 then x[2] else 0);
      if |x| >= 3 {
        OctetsLong(Full(x));
        assert Full(x)[4..] == Full(x[3..]);
        hide Full;
        OctetsOfFull(x[3..]);
      } else {
        OctetsShort(Full(x));
      }
    }
  }

  lemma {:induction false} PayloadEndAt(s: Text, i: nat, e: nat)
    requires i <= e <= |s| && (forall k | i <= k < e :: s[k] != PAD)
    requires e == |s| || (s[e] == PAD && e % 4 > 1)
    ensures PayloadEnd(s, i) == e
    decreases e - i
  {
    if i == e {
    } else {
      PayloadEndAt(s, i + 1, e);
    }
  }

  /** The payload of an encoding, read back, is its 6-bit values. */
  lemma PayloadOf(v: seq<Byte>)
    requires Sextets(v) && |v| % 4 != 1
    ensures var s := Symbols(v) + Pads(|v|);
            && PayloadEnd(s, 0) == |v| && AllSymbols(s[..|v|]) && Values(s[..|v|]) == v
  {
    hide Symbol, Value;
    var s := Symbols(v) + Pads(|v|);
    assert s[..|v|] == Symbols(v);
    forall k | 0 <= k < |v|
      ensures s[k] != PAD && Value(s[k]) == Some(v[k])
    {
      ValueInvertsSymbol(s[k], v[k]);
    }
    PayloadEndAt(s, 0, |v|);
  }

  /** Decoding an encoding gives the octets back, whatever their number. */
  lemma RoundTrip(x: seq<Byte>)
    ensures Decoding(Encoding(x)) == Ok(x)
  {
    hide Symbol, Value, Octets, Full, Encoding;
    EncodingIsFull(x);
    FullLength(x);
    PayloadOf(Full(x));
    OctetsOfFull(x);
  }

  /** The last of n 6-bit values has no bits beyond the octets. */
  predicate Clean(last: Byte, n: nat) {
    && (n % 4 == 2 ==> last & 15 == 0)
    && (n % 4 == 3 ==> last & 3 == 0)
  }

  ghost predicate NoStrayBits(v: seq<Byte>) {
    v != [] ==> Clean(v[|v| - 1], |v|)
  }

  /** Texts that decode and are padded to full quanta with the unused bits zero. */
  ghost predicate Canonical(s: Text) {
    var payload := s[..PayloadEnd(s, 0)];
    && Decoding(s).Ok?
    && s == payload + Pads(|payload|)
    && NoStrayBits(Values(payload))
  }

  lemma FullShort(v: seq<Byte>)
    requires Sextets(v) && (|v| == 2 || |v| == 3) && NoStrayBits(v)
    ensures Full(Octets(v)) == v
  {
    OctetsShort(v);
    SextetsRecovered(v[0], v[1], if |v| > 2 then v[2] else 0, 0);
    hide First, Second, Third, Fourth, OctetA, OctetB, OctetC, Octets;
  }

  lemma CleanRepeats(last: Byte, n: nat)
    ensures Clean(last, n + 4) == Clean(last, n)
  {
  }

  lemma StrayBitsTail(v: seq<Byte>)
    requires |v| >= 4 && NoStrayBits(v)
    ensures NoStrayBits(v[4..]) && |v[4..]| % 4 == |v| % 4
  {
    NextMod4(|v| - 4);
    hide Clean;
    if |v| > 4 {
      CleanRepeats(v[|v| - 1], |v| - 4);
    }
  }

  lemma {:induction false} FullOfOctets(v: seq<Byte>)
    requires Sextets(v) && |v| % 4 != 1 && NoStrayBits(v)
    ensures Full(Octets(v)) == v
  {
    hide First, Second, Third, Fourth, OctetA, OctetB, OctetC, Octets, NoStrayBits, Full;
    if v == [] {
      OctetsShort(v);
      FullNothing();
    } else if |v| < 4 {
      FullShort(v);
    } else {
      OctetsLong(v);
      SextetsRecovered(v[0], v[1], v[2], v[3]);
      FullLong(Octets(v));
      assert Octets(v)[3..] == Octets(v[4..]);
      StrayBitsTail(v);
      FullOfOctets(v[4..]);
      assert v == [v[0], v[1], v[2], v[3]] + v[4..];
    }
  }

  lemma FullNothing()
    ensures Full([]) == []
  {
  }

  lemma FillBits(a: Byte)
    ensures Second(a, 0) & 15 == 0 && Third(a, 0) & 3 == 0
  {
  }

  lemma StrayBitsLast(q: seq<Byte>, v: seq<Byte>)
    requires |q| == 4 && NoStrayBits(v)
    ensures NoStrayBits(q + v)
  {
    if v == [] {
    } else {
      hide Clean;
      assert (q + v)[|q + v| - 1] == v[|v| - 1];
      CleanRepeats(v[|v| - 1], |v|);
    }
  }

  lemma {:induction false} FullHasNoStrayBits(x: seq<Byte>)
    ensures NoStrayBits(Full(x))
  {
    if |x| < 3 {
      if x != [] {
        FillBits(x[|x| - 1]);
      }
      hide First, Second, Third, Fourth;
    } else {
      hide NoStrayBits, Full, First, Second, Third, Fourth;
      FullLong(x);
      FullHasNoStrayBits(x[3..]);
      StrayBitsLast([First(x[0]), Second(x[0], x[1]), Third(x[1], x[2]), Fourth(x[2])], Full(x[3..]));
    }
  }

  /** Encoding undoes decoding exactly on the canonical texts. */
  lemma CanonicalRoundTrip(s: Text)
    requires Decoding(s).Ok?
    ensures Encoding(Decoding(s).value) == s <==> Canonical(s)
  {
    hide Symbol, Value, Octets, Full, Encoding;
    var payload := s[..PayloadEnd(s, 0)];
    var x := Decoding(s).value;
    EncodingIsFull(x);
    if Canonical(s) {
      FullOfOctets(Values(payload));
      TextOfValues(payload);
    }
    if Encoding(x) == s {
      FullLength(x);
      PayloadOf(Full(x));
      FullHasNoStrayBits(x);
    }
  }

  lemma TextOfValues(s: Text)
    requires AllSymbols(s)
    ensures Symbols(Values(s)) == s
  {
    hide Symbol, Value;
    forall k | 0 <= k < |s|
      ensures Symbol(Values(s)[k]) == s[k]
    {
      ValueInvertsSymbol(s[k], Values(s)[k]);
    }
  }

  // ---------------------------------------------------------------------------------------------
  // The codec bit by bit.

  const UPPER := "ABCDEFGHIJKLMNOPQRSTUVWXYZ"
  const LOWER := "abcdefghijklmnopqrstuvwxyz"
  const NUMERALS := "0123456789"

  lemma UpperAt(n: int)
    requires 0 <= n < 26
    ensures UPPER[n] as int == 65 + n
  {
  }

  lemma LowerAt(n: int)
    requires 0 <= n < 26
    ensures LOWER[n] as int == 97 + n
  {
  }

  lemma NumeralAt(n: int)
    requires 0 <= n < 10
    ensures NUMERALS[n] as int == 48 + n
  {
  }

  /** The alphabet in full. */
  lemma Alphabet(n: int)
    requires 0 <= n < 64
    ensures Code(n) == (UPPER + LOWER + NUMERALS + "+/")[n] as int
  {
    if n < 26 {
      UpperAt(n);
    } else if n < 52 {
      LowerAt(n - 26);
    } else if n < 62 {
      NumeralAt(n - 52);
    }
  }

  /** Bit k of an octet from the left. */
  predicate BitSet(b: Byte, k: nat)
    requires k < 8
  {
    match k
    case 0 => b & 128 != 0
    case 1 => b & 64 != 0
    case 2 => b & 32 != 0
    case 3 => b & 16 != 0
    case 4 => b & 8 != 0
    case 5 => b & 4 != 0
    case 6 => b & 2 != 0
    case _ => b & 1 != 0
  }

  lemma FirstBit(a: Byte, i: nat)
    requires i < 6
    ensures BitSet(First(a), 2 + i) <==> BitSet(a, i)
  {
  }

  lemma SecondBit(a: Byte, b: Byte, i: nat)
    requires i < 6
    ensures BitSet(Second(a, b), 2 + i) <==> if i < 2 then BitSet(a, 6 + i) else BitSet(b, i - 2)
  {
  }

  lemma ThirdBit(b: Byte, c: Byte, i: nat)
    requires i < 6
    ensures BitSet(Third(b, c), 2 + i) <==> if i < 4 then BitSet(b, 4 + i) else BitSet(c, i - 4)
  {
  }

  lemma FourthBit(c: Byte, i: nat)
    requires i < 6
    ensures BitSet(Fourth(c), 2 + i) <==> BitSet(c, 2 + i)
  {
  }

  lemma NoBit(i: nat)
    requires i < 8
    ensures !BitSet(0, i)
  {
  }

  /** Bit p of a sequence of octets, and of one of 6-bit values; past the end there are zeros. */
  predicate OctetBit(x: seq<Byte>, p: nat) {
    p / 8 < |x| && BitSet(x[p / 8], p % 8)
  }

  predicate SextetBit(v: seq<Byte>, p: nat) {
    p / 6 < |v| && BitSet(v[p / 6], 2 + p % 6)
  }

  lemma GroupBits(a: Byte, b: Byte, c: Byte, p: nat)
    requires p < 24
    ensures SextetBit([First(a), Second(a, b), Third(b, c), Fourth(c)], p) <==> OctetBit([a, b, c], p)
  {
    hide First, Second, Third, Fourth, BitSet;
    if p < 6 {
      FirstBit(a, p);
    } else if p < 12 {
      SecondBit(a, b, p - 6);
    } else if p < 18 {
      ThirdBit(b, c, p - 12);
    } else {
      FourthBit(c, p - 18);
    }
  }

  lemma BitsBehind(g: seq<Byte>, x: seq<Byte>, q: seq<Byte>, v: seq<Byte>, p: nat)
    requires |g| == 3 && |q| == 4
    ensures OctetBit(g + x, p) <==> if p < 24 then OctetBit(g, p) else OctetBit(x, p - 24)
    ensures SextetBit(q + v, p) <==> if p < 24 then SextetBit(q, p) else SextetBit(v, p - 24)
  {
    hide BitSet;
    if p >= 24 {
      assert (p - 24) / 8 == p / 8 - 3 && (p - 24) % 8 == p % 8;
      assert (p - 24) / 6 == p / 6 - 4 && (p - 24) % 6 == p % 6;
    }
  }

  lemma FewBits(x: seq<Byte>, p: nat)
    requires |x| < 3
    ensures SextetBit(Full(x), p) <==> OctetBit(x, p)
  {
    hide First, Second, Third, Fourth, BitSet;
    if x != [] && p < 24 {
      var b := if |x| > 1 then x[1] else 0;
      GroupBits(x[0], b, 0, p);
      NoBit(p % 8);
    }
  }

  /** The 6-bit values of an encoding are the bits of the octets, in order, and zeros to fill the last one. */
  lemma {:induction false} FullBits(x: seq<Byte>, p: nat)
    ensures SextetBit(Full(x), p) <==> OctetBit(x, p)
  {
    hide First, Second, Third, Fourth, Full, OctetBit, SextetBit;
    if |x| < 3 {
      FewBits(x, p);
    } else {
      FullLong(x);
      var q := [First(x[0]), Second(x[0], x[1]), Third(x[1], x[2]), Fourth(x[2])];
      assert x == [x[0], x[1], x[2]] + x[3..];
      BitsBehind([x[0], x[1], x[2]], x[3..], q, Full(x[3..]), p);
      if p < 24 {
        GroupBits(x[0], x[1], x[2], p);
      } else {
        FullBits(x[3..], p - 24);
      }
    }
  }

  lemma {:induction false} FullCount(x: seq<Byte>)
    ensures |Full(x)| == (4 * |x| + 2) / 3
  {
    if |x| < 3 {
    } else {
      FullLong(x);
      hide Full;
      FullCount(x[3..]);
    }
  }

  /**
   The encoding in terms of bits.  It has four symbols for every three octets begun; the first ones,
   as many as the bits take six at a time, are the letters of those bits in order, with zeros to fill
   the last, and the rest are "=".
   */
  lemma EncodingIsItsBits(x: seq<Byte>)
    ensures |Encoding(x)| == (|x| + 2) / 3 * 4
    ensures var n := (4 * |x| + 2) / 3;
            && n <= |Encoding(x)| && AllSymbols(Encoding(x)[..n])
            && (forall p: nat :: SextetBit(Values(Encoding(x)[..n]), p) <==> OctetBit(x, p))
            && (forall k | n <= k < |Encoding(x)| :: Encoding(x)[k] == '=' as int)
  {
    hide Symbol, Value, Full, Encoding, OctetBit, SextetBit;
    var n := |Full(x)|;
    FullCount(x);
    FullLength(x);
    EncodingIsFull(x);
    PayloadOf(Full(x));
    assert Encoding(x)[..n] == Symbols(Full(x));
    forall p: nat
      ensures SextetBit(Full(x), p) <==> OctetBit(x, p)
    {
      FullBits(x, p);
    }
  }

  lemma OctetABit(a: Byte, b: Byte, i: nat)
    requires a < 64 && b < 64 && i < 8
    ensures BitSet(OctetA(a, b), i) <==> if i < 6 then BitSet(a, 2 + i) else BitSet(b, i - 4)
  {
  }

  lemma OctetBBit(b: Byte, c: Byte, i: nat)
    requires b < 64 && c < 64 && i < 8
    ensures BitSet(OctetB(b, c), i) <==> if i < 4 then BitSet(b, 4 + i) else BitSet(c, i - 2)
  {
  }

  lemma OctetCBit(c: Byte, d: Byte, i: nat)
    requires c < 64 && d < 64 && i < 8
    ensures BitSet(OctetC(c, d), i) <==> if i < 2 then BitSet(c, 6 + i) else BitSet(d, i)
  {
  }

  lemma QuantumBits(a: Byte, b: Byte, c: Byte, d: Byte, p: nat)
    requires a < 64 && b < 64 && c < 64 && d < 64 && p < 24
    ensures OctetBit([OctetA(a, b), OctetB(b, c), OctetC(c, d)], p) <==> SextetBit([a, b, c, d], p)
  {
    hide OctetA, OctetB, OctetC, BitSet;
    if p < 8 {
      OctetABit(a, b, p);
    } else if p < 16 {
      OctetBBit(b, c, p - 8);
    } else {
      OctetCBit(c, d, p - 16);
    }
  }

  lemma FewOctetsBits(v: seq<Byte>, p: nat)
    requires Sextets(v) && |v| < 4
    ensures |Octets(v)| == 6 * |v| / 8
    ensures p < 8 * |Octets(v)| ==> (OctetBit(Octets(v), p) <==> SextetBit(v, p))
  {
    hide OctetA, OctetB, OctetC, Octets, BitSet;
    OctetsShort(v);
    if |v| >= 2 && p < 24 {
      QuantumBits(v[0], v[1], if |v| > 2 then v[2] else 0, 0, p);
    }
  }

  /** Decoding keeps the bits of the 6-bit values, in order, for as many octets as they fill. */
  lemma {:induction false} OctetsBits(v: seq<Byte>, p: nat)
    requires Sextets(v)
    ensures |Octets(v)| == 6 * |v| / 8
    ensures p < 8 * |Octets(v)| ==> (OctetBit(Octets(v), p) <==> SextetBit(v, p))
    decreases |v|
  {
    hide OctetA, OctetB, OctetC, Octets, BitSet, OctetBit, SextetBit;
    if |v| < 4 {
      FewOctetsBits(v, p);
    } else {
      OctetsLong(v);
      var g, q := [OctetA(v[0], v[1]), OctetB(v[1], v[2]), OctetC(v[2], v[3])], [v[0], v[1], v[2], v[3]];
      assert v == q + v[4..];
      OctetsBits(v[4..], if p < 24 then 0 else p - 24);
      BitsBehind(g, Octets(v[4..]), q, v[4..], p);
      if p < 24 {
        QuantumBits(v[0], v[1], v[2], v[3], p);
      }
    }
  }

  /**
   The decoding in terms of bits.  What counts is the text up to the first "=" from the third place of a
   group on; it must be in the alphabet and leave no symbol over, and then its bits, in order, are
   those of the octets, as many as they fill.
   */
  lemma DecodingIsItsBits(s: Text, e: nat)
    requires e <= |s| && (e < |s| ==> s[e] == '=' as int && e % 4 >= 2)
    requires forall k | 0 <= k < e :: s[k] == '=' as int ==> k % 4 < 2
    ensures Decoding(s).Ok? <==> AllSymbols(s[..e]) && e % 4 != 1
    ensures Decoding(s).Ok? ==>
              var x := Decoding(s).value;
              && |x| == 6 * e / 8
              && forall p: nat | p < 8 * |x| :: OctetBit(x, p) <==> SextetBit(Values(s[..e]), p)
  {
    hide Value, Octets, OctetBit, SextetBit;
    EndsAt(s, 0, e);
    if Decoding(s).Ok? {
      var v := Values(s[..e]);
      OctetsBits(v, 0);
      forall p: nat | p < 8 * |Octets(v)|
        ensures OctetBit(Octets(v), p) <==> SextetBit(v, p)
      {
        OctetsBits(v, p);
      }
    }
  }

  lemma {:induction false} EndsAt(s: Text, i: nat, e: nat)
    requires i <= e <= |s| && (e < |s| ==> s[e] == '=' as int && e % 4 >= 2)
    requires forall k | i <= k < e :: s[k] == '=' as int ==> k % 4 < 2
    ensures PayloadEnd(s, i) == e
    decreases e - i
  {
    if i < e {
      EndsAt(s, i + 1, e);
    }
  }
}
