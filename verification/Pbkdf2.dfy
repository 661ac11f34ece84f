/**
 Password-based key derivation (pbkdf2SHA256 in internal/auth/password.go) against section 5.2 of
 RFC 2898.  HMAC-SHA256 is any function from a key and a text to 32 octets.
 */
module Pbkdf2 {
  newtype Octet = x: int | 0 <= x < 256
  type Prf = (seq<Octet>, seq<Octet>) -> seq<Octet>

  const HLEN: nat := 32
  const COUNTERS: nat := 0x1_0000_0000

  ghost predicate HLenOutput(prf: Prf) {
    forall key, text :: |prf(key, text)| == HLEN
  }

  // ---------------------------------------------------------------------------------------------
  // RFC 2898.

  /** The n low-order octets of v, most significant first. */
  function BigEndian(v: nat, n: nat): (r: seq<Octet>)
    ensures |r| == n
  {
    if n == 0 then [] else BigEndian(v / 256, n - 1) + [(v % 256) as Octet]
  }

  /** INT(i): four octets. */
  function Int(i: nat): (r: seq<Octet>)
    ensures |r| == 4
  {
    BigEndian(i, 4)
  }

  /** U_n of block i. */
  function U(prf: Prf, password: seq<Octet>, salt: seq<Octet>, i: nat, n: nat): seq<Octet>
    requires n >= 1
  {
    if n == 1 then prf(password, salt + Int(i)) else prf(password, U(prf, password, salt, i, n - 1))
  }

  /** The exclusive or of two binary numerals, from the last digit on. */
  function XorBits(a: nat, b: nat): nat {
    if a == 0 && b == 0 then 0 else 2 * XorBits(a / 2, b / 2) + (a + b) % 2
  }

  lemma {:induction false} XorFits(a: nat, b: nat, n: nat)
    requires a < Power(n) && b < Power(n)
    ensures XorBits(a, b) < Power(n)
    decreases n
  {
    if a == 0 && b == 0 {
    } else {
      XorFits(a / 2, b / 2, n - 1);
    }
  }

  /** 2^n. */
  function Power(n: nat): (p: nat)
    ensures p >= 1
  {
    if n == 0 then 1 else 2 * Power(n - 1)
  }

  function XorOctet(a: Octet, b: Octet): Octet {
    assert Power(8) == 256 by {
      assert Power(4) == 16;
    }
    XorFits(a as nat, b as nat, 8);
    XorBits(a as nat, b as nat) as Octet
  }

  function Xor(a: seq<Octet>, b: seq<Octet>): (r: seq<Octet>)
    requires |a| == |b|
    ensures |r| == |a| && forall j | 0 <= j < |r| :: r[j] == XorOctet(a[j], b[j])
  {
    seq(|a|, j requires 0 <= j < |a| => XorOctet(a[j], b[j]))
  }

  lemma UHasHLen(prf: Prf, password: seq<Octet>, salt: seq<Octet>, i: nat, n: nat)
    requires HLenOutput(prf) && n >= 1
    ensures |U(prf, password, salt, i, n)| == HLEN
  {
  }

  /** F(P, S, c, i): the exclusive or of U_1 to U_c. */
  ghost function F(prf: Prf, password: seq<Octet>, salt: seq<Octet>, c: nat, i: nat): (r: seq<Octet>)
    requires HLenOutput(prf) && c >= 1
    ensures |r| == HLEN
  {
    UHasHLen(prf, password, salt, i, c);
    if c == 1 then U(prf, password, salt, i, 1)
    else Xor(F(prf, password, salt, c - 1, i), U(prf, password, salt, i, c))
  }

  lemma FOne(prf: Prf, password: seq<Octet>, salt: seq<Octet>, i: nat)
    requires HLenOutput(prf)
    ensures |prf(password, salt + Int(i))| == HLEN
    ensures F(prf, password, salt, 1, i) == U(prf, password, salt, i, 1) == prf(password, salt + Int(i))
  {
  }

  lemma FStep(prf: Prf, password: seq<Octet>, salt: seq<Octet>, c: nat, i: nat)
    requires HLenOutput(prf) && c >= 1
    ensures |U(prf, password, salt, i, c + 1)| == HLEN
    ensures F(prf, password, salt, c + 1, i) == Xor(F(prf, password, salt, c, i), U(prf, password, salt, i, c + 1))
    ensures U(prf, password, salt, i, c + 1) == prf(password, U(prf, password, salt, i, c))
  {
    UHasHLen(prf, password, salt, i, c + 1);
  }

  /** T_1 || ... || T_l. */
  ghost function Blocks(prf: Prf, password: seq<Octet>, salt: seq<Octet>, c: nat, l: nat): (r: seq<Octet>)
    requires HLenOutput(prf) && c >= 1
    ensures |r| == l * HLEN
  {
    if l == 0 then [] else Blocks(prf, password, salt, c, l - 1) + F(prf, password, salt, c, l)
  }

  /** CEIL(dkLen / hLen). */
  function Ceil(dkLen: nat): (l: nat)
    ensures (l - 1) * HLEN < dkLen <= l * HLEN
  {
    (dkLen + HLEN - 1) / HLEN
  }

  /** The derived key. */
  ghost function DK(prf: Prf, password: seq<Octet>, salt: seq<Octet>, c: nat, dkLen: nat): (r: seq<Octet>)
    requires HLenOutput(prf) && c >= 1
    ensures |r| == dkLen
  {
    Blocks(prf, password, salt, c, Ceil(dkLen))[..dkLen]
  }

  // ---------------------------------------------------------------------------------------------
  // The block counter.

  function Unsigned(s: seq<Octet>): nat {
    if s == [] then 0 else 256 * Unsigned(s[..|s| - 1]) + s[|s| - 1] as int
  }

  /** The four octets the source writes: byte(i >> 24), byte(i >> 16), byte(i >> 8), byte(i). */
  lemma IntOctets(i: nat)
    ensures Int(i) == [(i / 0x100_0000 % 256) as Octet, (i / 0x1_0000 % 256) as Octet,
                       (i / 0x100 % 256) as Octet, (i % 256) as Octet]
  {
    assert i / 256 / 256 == i / 0x1_0000 && i / 256 / 256 / 256 == i / 0x100_0000;
    assert BigEndian(i / 0x100_0000, 1) == [(i / 0x100_0000 % 256) as Octet];
    assert BigEndian(i / 0x1_0000, 2) == BigEndian(i / 0x100_0000, 1) + [(i / 0x1_0000 % 256) as Octet];
    assert BigEndian(i / 0x100, 3) == BigEndian(i / 0x1_0000, 2) + [(i / 0x100 % 256) as Octet];
  }

  lemma UnsignedAppend(s: seq<Octet>, o: Octet)
    ensures Unsigned(s + [o]) == 256 * Unsigned(s) + o as int
  {
    assert (s + [o])[..|s|] == s;
  }

  lemma Quarters(i: nat)
    ensures 256 * (256 * (256 * (i / 0x100_0000 % 256) + i / 0x1_0000 % 256) + i / 0x100 % 256) + i % 256
            == i % COUNTERS
  {
    var a := i / 256;
    var b := a / 256;
    var c := b / 256;
    assert b == i / 0x1_0000 && c == i / 0x100_0000;
    assert i == COUNTERS * (c / 256) + (0x100_0000 * (c % 256) + 0x1_0000 * (b % 256) + 0x100 * (a % 256) + i % 256);
  }

  lemma UnsignedFour(a: Octet, b: Octet, c: Octet, d: Octet)
    ensures Unsigned([a, b, c, d]) == 256 * (256 * (256 * a as int + b as int) + c as int) + d as int
  {
    UnsignedAppend([], a);
    assert [] + [a] == [a];
    UnsignedAppend([a], b);
    assert [a] + [b] == [a, b];
    UnsignedAppend([a, b], c);
    assert [a, b] + [c] == [a, b, c];
    UnsignedAppend([a, b, c], d);
    assert [a, b, c] + [d] == [a, b, c, d];
    hide Unsigned;
  }

  lemma IntValue(i: nat)
    ensures Unsigned(Int(i)) == i % COUNTERS
  {
    hide Unsigned, Int;
    IntOctets(i);
    Quarters(i);
    UnsignedFour((i / 0x100_0000 % 256) as Octet, (i / 0x1_0000 % 256) as Octet,
                 (i / 0x100 % 256) as Octet, (i % 256) as Octet);
  }

  /**
   INT(i) stands for i in every block of a key exactly when the key is no longer than the
   standard allows, (2^32 - 1) * hLen octets.
   */
  lemma CountersFit(dkLen: nat)
    ensures (forall i | 1 <= i <= Ceil(dkLen) :: Unsigned(Int(i)) == i) <==> dkLen <= (COUNTERS - 1) * HLEN
  {
    if dkLen <= (COUNTERS - 1) * HLEN {
      forall i | 1 <= i <= Ceil(dkLen)
        ensures Unsigned(Int(i)) == i
      {
        IntValue(i);
      }
    } else {
      IntValue(COUNTERS);
      assert 1 <= COUNTERS <= Ceil(dkLen) && Unsigned(Int(COUNTERS)) == 0;
    }
  }

  // ---------------------------------------------------------------------------------------------
  // Keys of different lengths.

  lemma {:induction false} BlocksPrefix(prf: Prf, password: seq<Octet>, salt: seq<Octet>, c: nat, k: nat, l: nat)
    requires HLenOutput(prf) && c >= 1 && k <= l
    ensures k * HLEN <= l * HLEN
    ensures Blocks(prf, password, salt, c, k) == Blocks(prf, password, salt, c, l)[..k * HLEN]
  {
    hide F, HLenOutput;
    if k == l {
    } else {
      BlocksPrefix(prf, password, salt, c, k, l - 1);
      assert Blocks(prf, password, salt, c, l)[..(l - 1) * HLEN] == Blocks(prf, password, salt, c, l - 1);
    }
  }

  /** A shorter key is a prefix of a longer one. */
  lemma ShorterIsPrefix(prf: Prf, password: seq<Octet>, salt: seq<Octet>, c: nat, short: nat, long: nat)
    requires HLenOutput(prf) && c >= 1 && short <= long
    ensures DK(prf, password, salt, c, short) == DK(prf, password, salt, c, long)[..short]
  {
    assert Ceil(short) <= Ceil(long);
    BlocksPrefix(prf, password, salt, c, Ceil(short), Ceil(long));
  }

  // ---------------------------------------------------------------------------------------------
  // The key bit by bit.

  /** The k-th bit of v, the last one being the 0-th. */
  function Bit(v: nat, k: nat): nat
    decreases k
  {
    if k == 0 then v % 2 else Bit(v / 2, k - 1)
  }

  function BitAt(s: seq<Octet>, j: nat, k: nat): nat
    requires j < |s|
  {
    Bit(s[j] as nat, k)
  }

  lemma {:induction false} XorBit(a: nat, b: nat, k: nat)
    ensures Bit(XorBits(a, b), k) == (Bit(a, k) + Bit(b, k)) % 2
    decreases k
  {
    var x := XorBits(a, b);
    assert x % 2 == (a + b) % 2 && x / 2 == XorBits(a / 2, b / 2);
    if k == 0 {
    } else {
      XorBit(a / 2, b / 2, k - 1);
    }
  }

  /** The outputs that go into a block: the first of salt and counter, and each other one of the one before. */
  ghost predicate Chain(prf: Prf, password: seq<Octet>, salt: seq<Octet>, i: nat, us: seq<seq<Octet>>) {
    && us != [] && (forall n | 0 <= n < |us| :: |us[n]| == 32)
    && us[0] == prf(password, salt + [(i / 0x100_0000 % 256) as Octet, (i / 0x1_0000 % 256) as Octet,
                                      (i / 0x100 % 256) as Octet, (i % 256) as Octet])
    && forall n | 0 < n < |us| :: us[n] == prf(password, us[n - 1])
  }

  /** How many of the outputs have bit k of octet j set. */
  function Ones(us: seq<seq<Octet>>, j: nat, k: nat): nat
    requires forall n | 0 <= n < |us| :: j < |us[n]|
  {
    if us == [] then 0 else Ones(us[..|us| - 1], j, k) + BitAt(us[|us| - 1], j, k)
  }

  lemma ChainPrefix(prf: Prf, password: seq<Octet>, salt: seq<Octet>, i: nat, us: seq<seq<Octet>>)
    requires |us| > 1 && Chain(prf, password, salt, i, us)
    ensures Chain(prf, password, salt, i, us[..|us| - 1])
  {
  }

  lemma {:induction false} ChainIsU(prf: Prf, password: seq<Octet>, salt: seq<Octet>, i: nat, us: seq<seq<Octet>>)
    requires Chain(prf, password, salt, i, us)
    ensures us[|us| - 1] == U(prf, password, salt, i, |us|)
  {
    if |us| == 1 {
      IntOctets(i);
      hide Int;
    } else {
      ChainPrefix(prf, password, salt, i, us);
      ChainIsU(prf, password, salt, i, us[..|us| - 1]);
    }
  }

  /** Each bit of a block is the parity of that bit over the outputs that go into it. */
  lemma {:induction false} BlockBits(prf: Prf, password: seq<Octet>, salt: seq<Octet>, i: nat, us: seq<seq<Octet>>,
                                     j: nat, k: nat)
    requires HLenOutput(prf) && Chain(prf, password, salt, i, us) && j < 32
    ensures BitAt(F(prf, password, salt, |us|, i), j, k) == Ones(us, j, k) % 2
  {
    hide HLenOutput, Int, Bit, XorBits, U;
    var c := |us|;
    ChainIsU(prf, password, salt, i, us);
    if c == 1 {
      FOne(prf, password, salt, i);
      OneOnes(us, j, k);
      BitIsBit(us[0][j] as nat, k);
    } else {
      ChainPrefix(prf, password, salt, i, us);
      BlockBits(prf, password, salt, i, us[..c - 1], j, k);
      FStep(prf, password, salt, c - 1, i);
      hide F, Chain;
      var f := F(prf, password, salt, c - 1, i);
      XorBit(f[j] as nat, us[c - 1][j] as nat, k);
    }
  }

  lemma AllBits(prf: Prf, password: seq<Octet>, salt: seq<Octet>, i: nat, c: nat)
    requires HLenOutput(prf) && c >= 1
    ensures forall us, j: nat, k: nat | |us| == c && Chain(prf, password, salt, i, us) && j < 32 ::
              BitAt(F(prf, password, salt, c, i), j, k) == Ones(us, j, k) % 2
  {
    hide HLenOutput, F, BitAt, Ones;
    forall us, j: nat, k: nat | |us| == c && Chain(prf, password, salt, i, us) && j < 32
      ensures BitAt(F(prf, password, salt, c, i), j, k) == Ones(us, j, k) % 2
    {
      BlockBits(prf, password, salt, i, us, j, k);
    }
  }

  lemma OneOnes(us: seq<seq<Octet>>, j: nat, k: nat)
    requires |us| == 1 && j < |us[0]|
    ensures Ones(us, j, k) == BitAt(us[0], j, k)
  {
  }

  lemma {:induction false} BitIsBit(v: nat, k: nat)
    ensures Bit(v, k) <= 1 && Bit(v, k) % 2 == Bit(v, k)
    decreases k
  {
    if k > 0 {
      BitIsBit(v / 2, k - 1);
    }
  }

  lemma {:induction false} BlocksAt(prf: Prf, password: seq<Octet>, salt: seq<Octet>, c: nat, l: nat, p: nat)
    requires HLenOutput(prf) && c >= 1 && p < l * 32
    ensures Blocks(prf, password, salt, c, l)[p] == F(prf, password, salt, c, p / 32 + 1)[p % 32]
  {
    hide F, HLenOutput;
    if p >= (l - 1) * 32 {
    } else {
      BlocksAt(prf, password, salt, c, l - 1, p);
    }
  }

  /**
   The key in terms of the pseudorandom function alone: for the outputs us that go into the block of
   octet p, a chain of c of them, each bit of the octet is the parity of that bit over them.
   */
  lemma KeyBits(prf: Prf, password: seq<Octet>, salt: seq<Octet>, c: nat, dkLen: nat, p: nat, us: seq<seq<Octet>>,
                k: nat)
    requires HLenOutput(prf) && |us| == c && p < dkLen && Chain(prf, password, salt, p / 32 + 1, us)
    ensures BitAt(DK(prf, password, salt, c, dkLen), p, k) == Ones(us, p % 32, k) % 2
  {
    BlocksAt(prf, password, salt, c, Ceil(dkLen), p);
    BlockBits(prf, password, salt, p / 32 + 1, us, p % 32, k);
    hide F, HLenOutput, Blocks, Bit, Ones, Chain;
  }

  /** There is such a chain for every block and count. */
  lemma {:induction false} ChainExists(prf: Prf, password: seq<Octet>, salt: seq<Octet>, c: nat, i: nat)
      returns (us: seq<seq<Octet>>)
    requires HLenOutput(prf) && c >= 1
    ensures |us| == c && Chain(prf, password, salt, i, us)
  {
    if c == 1 {
      us := [prf(password, salt + [(i / 0x100_0000 % 256) as Octet, (i / 0x1_0000 % 256) as Octet,
                                   (i / 0x100 % 256) as Octet, (i % 256) as Octet])];
    } else {
      us := ChainExists(prf, password, salt, c - 1, i);
      us := us + [prf(password, us[c - 2])];
    }
  }

  // ---------------------------------------------------------------------------------------------
  // The implementation.

  /** hash.Hash as hmac.New makes it: what is written accumulates until the next Reset. */
  class Mac {
    const prf: Prf
    const key: seq<Octet>
    var text: seq<Octet>

    constructor (prf: Prf, key: seq<Octet>)
      ensures this.prf == prf && this.key == key && text == []
    {
      this.prf, this.key, text := prf, key, [];
    }

    method Write(p: seq<Octet>)
      modifies this
      ensures text == old(text) + p
    {
      text := text + p;
    }

    method Reset()
      modifies this
      ensures text == []
    {
      text := [];
    }

    method Sum() returns (r: seq<Octet>)
      ensures r == prf(key, text)
    {
      r := prf(key, text);
    }
  }

  method XorInto(t: array<Octet>, u: seq<Octet>)
    requires |u| == t.Length
    modifies t
    ensures t[..] == Xor(old(t[..]), u)
    ensures forall j: nat, k: nat | j < t.Length ::
              BitAt(t[..], j, k) == (BitAt(old(t[..]), j, k) + BitAt(u, j, k)) % 2
  {
    hide Bit, XorBits;
    ghost var before := t[..];
    for j := 0 to t.Length
      invariant forall k | 0 <= k < j :: t[k] == XorOctet(old(t[..])[k], u[k])
      invariant forall k | j <= k < t.Length :: t[k] == old(t[..])[k]
    {
      t[j] := XorOctet(t[j], u[j]);
    }
    forall j: nat, k: nat | j < t.Length
      ensures BitAt(t[..], j, k) == (BitAt(before, j, k) + BitAt(u, j, k)) % 2
    {
      XorBit(before[j] as nat, u[j] as nat, k);
    }
  }

  /** The rounds of one block; block[..] is the salt and the counter. */
  method Rounds(prf: Prf, password: seq<Octet>, block: array<Octet>, iter: int,
                ghost salt: seq<Octet>, ghost i: nat) returns (t: array<Octet>)
    requires HLenOutput(prf) && block[..] == salt + Int(i)
    ensures fresh(t)
    ensures t[..] == F(prf, password, salt, if iter < 1 then 1 else iter, i)
    ensures t.Length == 32
    ensures forall us, j: nat, k: nat | |us| == (if iter < 1 then 1 else iter) && Chain(prf, password, salt, i, us)
                                        && j < 32 ::
              BitAt(t[..], j, k) == Ones(us, j, k) % 2
  {
    hide U, F, Xor, Int, HLenOutput, Bit, BitAt, Ones;
    FOne(prf, password, salt, i);
    var mac := new Mac(prf, password);
    mac.Write(block[..]);
    assert [] + block[..] == salt + Int(i);
    var u := mac.Sum();
    t := new Octet[|u|](j requires 0 <= j < |u| => u[j]);
    assert t[..] == u;
    var n := 2;
    while n <= iter
      invariant 2 <= n && (n <= iter + 1 || n == 2)
      invariant fresh(mac) && mac.prf == prf && mac.key == password && fresh(t)
      invariant u == U(prf, password, salt, i, n - 1)
      invariant t[..] == F(prf, password, salt, n - 1, i)
    {
      FStep(prf, password, salt, n - 1, i);
      mac.Reset();
      mac.Write(u);
      assert [] + u == u;
      u := mac.Sum();
      XorInto(t, u);
      n := n + 1;
    }
    AllBits(prf, password, salt, i, n - 1);
  }

  method WriteCounter(block: array<Octet>, n: nat, i: nat)
    requires block.Length == n + 4
    modifies block
    ensures block[..] == old(block[..n]) + Int(i)
  {
    hide Int;
    block[n] := (i / 0x100_0000 % 256) as Octet;
    block[n + 1] := (i / 0x1_0000 % 256) as Octet;
    block[n + 2] := (i / 0x100 % 256) as Octet;
    block[n + 3] := (i % 256) as Octet;
    IntOctets(i);
  }

  /**
   The loops return exactly the key of the standard, each bit the parity of that bit over the outputs
   of its block; fewer than one iteration counts as one.
   */
  method Derive(prf: Prf, password: seq<Octet>, salt: seq<Octet>, iter: int, keyLen: nat) returns (key: seq<Octet>)
    requires HLenOutput(prf)
    ensures key == DK(prf, password, salt, if iter < 1 then 1 else iter, keyLen)
    ensures |key| == keyLen
    ensures forall p: nat, us, k: nat | p < keyLen && |us| == (if iter < 1 then 1 else iter)
                                        && Chain(prf, password, salt, p / 32 + 1, us) ::
              BitAt(key, p, k) == Ones(us, p % 32, k) % 2
  {
    hide U, F, Xor, Int, HLenOutput, Bit, Ones;
    var numBlocks := (keyLen + HLEN - 1) / HLEN;
    var out := [];
    var block := new Octet[|salt| + 4](j requires 0 <= j => if j < |salt| then salt[j] else 0);
    ghost var c := if iter < 1 then 1 else iter;
    var i := 1;
    while i <= numBlocks
      invariant 1 <= i <= numBlocks + 1
      invariant block[..|salt|] == salt
      invariant out == Blocks(prf, password, salt, c, i - 1)
    {
      WriteCounter(block, |salt|, i);
      var t := Rounds(prf, password, block, iter, salt, i);
      out := out + t[..];
      i := i + 1;
    }
    key := out[..keyLen];
    forall p: nat, us, k: nat | p < keyLen && |us| == c && Chain(prf, password, salt, p / 32 + 1, us)
      ensures BitAt(key, p, k) == Ones(us, p % 32, k) % 2
    {
      KeyBits(prf, password, salt, c, keyLen, p, us, k);
    }
  }
}
