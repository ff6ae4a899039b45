/** The generator of partition and disk identifiers: a counter, scrambled, with version bits forced. */
module GptGuid {
  import opened Arithmetic
  import opened Bytes

  const WORD: nat := 0x1_0000_0000_0000_0000
  const MULTIPLIER: nat := 0x9E37_79B9_7F4A_7C15

  /** The counter times an odd constant, truncated to a word. */
  function Scramble(n: U64): U64 {
    n * MULTIPLIER % WORD
  }

  /** Two little-endian words. The high half of byte 6 and the top two bits of byte 8 are overwritten. */
  function Guid(n: U64): (g: seq<Byte>)
    ensures |g| == 16
  {
    var low, high := LE(8, n), LE(8, Scramble(n));
    low[..6] + [low[6] % 16 + 0x40, low[7], high[0] % 64 + 0x80] + high[1..]
  }

  class GuidSource {
    var counter: U64

    constructor ()
      ensures counter == 1
    {
      counter := 1;
    }

    /** The counter wraps after a word. */
    method Generate() returns (g: seq<Byte>)
      modifies this
      ensures g == Guid(old(counter)) && counter == (old(counter) + 1) % WORD
    {
      var n := counter;
      counter := (counter + 1) % WORD;
      var low, high := LE(8, n), LE(8, Scramble(n));
      g := low + high;
      g := g[6 := g[6] % 16 + 0x40];
      g := g[8 := g[8] % 64 + 0x80];
    }
  }

  /** The identifier says that it is of version 4 and of the standard variant (section 4.1 of RFC 4122); everything
      else is the counter and its product with the constant, the lowest byte first. */
  lemma GuidIs(n: U64)
    ensures var g, low, high := Guid(n), LE(8, n), LE(8, n * 0x9E37_79B9_7F4A_7C15 % 0x1_0000_0000_0000_0000);
      && g[6] / 0x10 == 4 && g[8] / 0x40 == 2
      && g[6] % 0x10 == low[6] % 0x10 && g[8] % 0x40 == high[0] % 0x40
      && g[0..6] == low[0..6] && g[7] == low[7] && g[9..16] == high[1..8]
  {
    hide LE;
  }

  const BIT48: nat := 0x1_0000_0000_0000

  lemma Pow48()
    ensures Pow256(6) == BIT48 && Pow256(7) == 256 * BIT48 && Pow256(8) == WORD
  {
  }

  lemma LowSix(n: U64)
    ensures Value(LE(8, n)[..6]) == n % BIT48
  {
    Pow48();
    assert LE(8, n)[..6] == LE(6, n);
    ValueOfLE(6, n);
  }

  lemma LowLast(n: U64)
    ensures LE(8, n)[6] == n / BIT48 % 256 && LE(8, n)[7] == n / BIT48 / 256
  {
    hide Pow256;
    Pow48();
    assert LE(8, n)[7] == n / (256 * BIT48) % 256;
    assert n / (256 * BIT48) == n / BIT48 / 256 by {
      SwapDivisors(n, BIT48);
    }
  }

  lemma SwapDivisors(n: nat, p: nat)
    requires p > 0
    ensures n / (256 * p) == n / p / 256
  {
    var q, r := n / p, n % p;
    assert n == p * q + r && q == 256 * (q / 256) + q % 256;
    assert p * q == p * (256 * (q / 256)) + p * (q % 256);
    assert p * (256 * (q / 256)) == 256 * p * (q / 256);
    MulMonotone(q % 256, 255, p);
    assert p * (q % 256) == q % 256 * p;
    DivModUnique(n, 256 * p, q / 256, p * (q % 256) + r);
  }

  lemma HighPart(h: U64)
    ensures Value(LE(8, h)[1..]) == h / 256
  {
    Pow48();
    LETail(8, h);
    assert LE(8, h)[1..] == LE(7, h / 256);
    ValueFits(7, h / 256);
  }

  lemma GuidParts(n: U64)
    ensures Guid(n)[..6] == LE(8, n)[..6] && Guid(n)[6] == LE(8, n)[6] % 16 + 0x40 && Guid(n)[7] == LE(8, n)[7]
    ensures Guid(n)[9..] == LE(8, Scramble(n))[1..]
  {
  }

  /** Counters whose identifiers agree differ by a small multiple of the overwritten half. */
  lemma LowAgrees(n: U64, m: U64) returns (d: int)
    requires Guid(n) == Guid(m)
    ensures n - m == d * 16 * BIT48 && -15 <= d <= 15
  {
    hide LE, Guid, Value;
    GuidParts(n);
    GuidParts(m);
    LowSix(n);
    LowSix(m);
    LowLast(n);
    LowLast(m);
    var a, b := n / BIT48, m / BIT48;
    SixteenApart(a % 256, b % 256);
    d := (a % 256 - b % 256) / 16;
    assert a / 256 == b / 256;
  }

  lemma SixteenApart(x: Byte, y: Byte)
    requires x % 16 == y % 16
    ensures x - y == (x - y) / 16 * 16 && -15 <= (x - y) / 16 <= 15
  {
  }

  /** The scrambled words of such counters differ by a multiple of `16 * BIT48` that is not a multiple of a word. */
  lemma ScrambleDiffers(n: U64, m: U64, d: int)
    requires n - m == d * 16 * BIT48 && -15 <= d <= 15 && d != 0
    ensures Scramble(n) / 256 != Scramble(m) / 256
  {
    var qn, qm := n * MULTIPLIER / WORD, m * MULTIPLIER / WORD;
    var k := d * MULTIPLIER - (qn - qm) * 4096;
    assert Scramble(n) - Scramble(m) == (n - m) * MULTIPLIER - (qn - qm) * WORD;
    assert (n - m) * MULTIPLIER == d * MULTIPLIER * (16 * BIT48) by {
      assert n - m == d * (16 * BIT48);
      Regroup(d, 16 * BIT48, MULTIPLIER);
    }
    assert WORD == 4096 * (16 * BIT48);
    assert Scramble(n) - Scramble(m) == k * (16 * BIT48);
    OddTimesSmall(d, qn - qm);
  }

  lemma Regroup(d: int, b: int, c: int)
    ensures d * b * c == d * c * b
  {
  }

  lemma OddTimesSmall(d: int, q: int)
    requires -15 <= d <= 15 && d != 0
    ensures d * MULTIPLIER - q * 4096 != 0
  {
  }

  /** Distinct counters never give the same identifier, in spite of the overwritten bits. */
  lemma GuidsDiffer(n: U64, m: U64)
    requires n != m
    ensures Guid(n) != Guid(m)
  {
    hide Scramble, LE, Value, Guid;
    if Guid(n) == Guid(m) {
      var d := LowAgrees(n, m);
      GuidParts(n);
      GuidParts(m);
      HighPart(Scramble(n));
      HighPart(Scramble(m));
      ScrambleDiffers(n, m, d);
      assert false;
    }
  }
}
