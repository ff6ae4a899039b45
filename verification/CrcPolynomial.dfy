/** What the checksum means: the remainder of a long division of polynomials over the two-element field. */
module CrcPolynomial {
  import opened Bytes
  import opened Crc32

  const WIDTH: nat := 32

  /** Coefficients, highest power first. */
  type Poly = seq<bool>

  ghost function XorBits(a: Poly, b: Poly): (r: Poly)
    requires |a| == |b|
    ensures |r| == |a|
  {
    seq(|a|, i requires 0 <= i < |a| => a[i] != b[i])
  }

  ghost function Repeat(b: bool, n: nat): (r: Poly)
    ensures |r| == n
  {
    seq(n, _ => b)
  }

  /** x^32 + x^26 + x^23 + x^22 + x^16 + x^12 + x^11 + x^10 + x^8 + x^7 + x^5 + x^4 + x^2 + x + 1, without its
      leading term. */
  ghost function Generator(): (g: Poly)
    ensures |g| == 32
  {
    seq(32, k => 31 - k in {26, 23, 22, 16, 12, 11, 10, 8, 7, 5, 4, 2, 1, 0})
  }

  /** Long division: while the dividend has more than 32 coefficients, the divisor is subtracted if the leading one
      is set, and the leading one is dropped. */
  ghost function Remainder(s: Poly): (r: Poly)
    requires |s| >= 32
    ensures |r| == 32
    decreases |s|
  {
    if |s| == 32 then s
    else if s[0] then Remainder(XorBits(s[1..33], Generator()) + s[33..])
    else Remainder(s[1..])
  }

  /** The low `n` bits of a number, the lowest first. */
  ghost function Bits(c: nat, n: nat): (r: Poly)
    ensures |r| == n
  {
    if n == 0 then [] else [c % 2 == 1] + Bits(c / 2, n - 1)
  }

  /** The bits of a message in the order of transmission: byte after byte, the lowest bit of a byte first. */
  ghost function Message(data: seq<Byte>): (r: Poly)
    ensures |r| == 8 * |data|
  {
    if data == [] then [] else Bits(data[0], BITS) + Message(data[1..])
  }

  /** A message with room for the remainder, and a register added to its first 32 bits. */
  ghost function Preset(c: U32, bits: Poly): (r: Poly)
    ensures |r| == |bits| + 32
  {
    XorBits(bits + Repeat(false, 32), Bits(c, WIDTH) + Repeat(false, |bits|))
  }

  lemma {:induction false} BitsXor(a: nat, b: nat, n: nat)
    ensures Bits(Xor(a, b), n) == XorBits(Bits(a, n), Bits(b, n))
  {
    if n > 0 {
      XorHalf(a, b);
      BitsXor(a / 2, b / 2, n - 1);
    }
  }

  lemma {:induction false} BitsHalf(c: nat, n: nat)
    requires c < Pow2(n)
    ensures Bits(c / 2, n) == Bits(c, n + 1)[1..] && Bits(c, n + 1) == Bits(c, n) + [false]
  {
    if n > 0 {
      BitsHalf(c / 2, n - 1);
    }
  }

  /** The bits of a number whose low `m` bits are given. */
  lemma {:induction false} BitsAbove(c: nat, hi: nat, lo: nat, m: nat, n: nat)
    requires lo < Pow2(m) && c == Pow2(m) * hi + lo
    ensures Bits(c, m + n) == Bits(lo, m) + Bits(hi, n)
    decreases m
  {
    if m > 0 {
      DoubleProduct(Pow2(m - 1), hi);
      assert c / 2 == Pow2(m - 1) * hi + lo / 2 && c % 2 == lo % 2;
      BitsAbove(c / 2, hi, lo / 2, m - 1, n);
    }
  }

  /** The constant of the program is the generator, its highest power in the lowest bit. */
  lemma PolyIsGenerator()
    ensures Bits(POLY, 4 * BITS) == Generator()
  {
    hide Bits, Generator, Pow2;
    Pow2Values();
    BitsAbove(POLY, 0xED_B883, 0x20, BITS, 3 * BITS);
    BitsAbove(0xED_B883, 0xEDB8, 0x83, BITS, 2 * BITS);
    BitsAbove(0xEDB8, 0xED, 0xB8, BITS, BITS);
    ByteBits();
    GeneratorBits();
  }

  lemma GeneratorBits()
    ensures Generator() ==
            [false, false, false, false, false, true, false, false]
            + ([true, true, false, false, false, false, false, true]
               + ([false, false, false, true, true, true, false, true]
                  + [true, false, true, true, false, true, true, true]))
  {
  }

  lemma ByteBits()
    ensures Bits(0x20, BITS) == [false, false, false, false, false, true, false, false]
    ensures Bits(0x83, BITS) == [true, true, false, false, false, false, false, true]
    ensures Bits(0xB8, BITS) == [false, false, false, true, true, true, false, true]
    ensures Bits(0xED, BITS) == [true, false, true, true, false, true, true, true]
  {
    hide Bits;
    EightBits(0x20);
    EightBits(0x83);
    EightBits(0xB8);
    EightBits(0xED);
  }

  lemma {:induction false} EightBits(c: nat)
    ensures Bits(c, BITS) == [c % 2 == 1, c / 2 % 2 == 1, c / 4 % 2 == 1, c / 8 % 2 == 1,
                              c / 16 % 2 == 1, c / 32 % 2 == 1, c / 64 % 2 == 1, c / 128 % 2 == 1]
  {
    hide Bits;
    FourBits(c, 4);
    FourBits(c / 16, 0);
  }

  lemma {:induction false} FourBits(c: nat, n: nat)
    ensures Bits(c, n + 4) == [c % 2 == 1, c / 2 % 2 == 1, c / 4 % 2 == 1, c / 8 % 2 == 1] + Bits(c / 16, n)
    ensures Bits(c, 0) == []
  {
    hide Bits;
    BitsStep(c, n + 3);
    BitsStep(c / 2, n + 2);
    BitsStep(c / 4, n + 1);
    BitsStep(c / 8, n);
  }

  lemma {:induction false} BitsStep(c: nat, n: nat)
    ensures Bits(c, n + 1) == [c % 2 == 1] + Bits(c / 2, n) && Bits(c, 0) == []
  {
  }

  /** Feeding one bit of the message is one step of the long division. */
  lemma FeedIsStep(c: U32, bits: Poly)
    requires bits != []
    ensures Remainder(Preset(c, bits)) == Remainder(Preset(FeedBit(c, if bits[0] then 1 else 0), bits[1..]))
  {
    hide Bits, Generator;
    var b := if bits[0] then 1 else 0;
    var s, next := Preset(c, bits), Preset(FeedBit(c, b), bits[1..]);
    Pow2Values();
    BitsHalf(c, WIDTH);
    FirstBit(c, WIDTH);
    assert s[0] <==> c % 2 != b;
    if c % 2 != b {
      BitsXor(c / 2, POLY, WIDTH);
      PolyIsGenerator();
      assert next == XorBits(s[1..33], Generator()) + s[33..];
    } else {
      assert next == s[1..];
    }
  }

  lemma {:induction false} FirstBit(c: nat, n: nat)
    requires n > 0
    ensures Bits(c, n)[0] == (c % 2 == 1)
  {
  }

  lemma {:induction false} FeedAll(c: U32, byte: Byte, n: nat, rest: Poly)
    ensures Remainder(Preset(c, Bits(byte, n) + rest)) == Remainder(Preset(FeedBits(c, byte, n), rest))
    decreases n
  {
    hide Remainder, Preset, FeedBit;
    if n == 0 {
      assert [] + rest == rest;
    } else {
      var bits := Bits(byte, n) + rest;
      assert bits[1..] == Bits(byte / 2, n - 1) + rest;
      FeedIsStep(c, bits);
      FeedAll(FeedBit(c, byte % 2), byte / 2, n - 1, rest);
    }
  }

  lemma {:induction false} DivideIsRemainder(c: U32, data: seq<Byte>)
    ensures Bits(Divide(c, data), WIDTH) == Remainder(Preset(c, Message(data)))
    decreases |data|
  {
    if data == [] {
      assert Preset(c, []) == Bits(c, WIDTH);
    } else {
      FeedAll(c, data[0], BITS, Message(data[1..]));
      DivideIsRemainder(FeedBits(c, data[0], BITS), data[1..]);
    }
  }

  /** The checksum of every byte string is the complemented remainder of its bits, the first 32 of them complemented
      and 32 zeros appended, by the generator. */
  lemma {:induction false} CrcIsRemainder(data: seq<Byte>)
    ensures var all := Message(data) + Repeat(false, 32);
      Bits(Crc(data), WIDTH) == XorBits(Remainder(XorBits(all, Repeat(true, 32) + Repeat(false, 8 * |data|))),
                                     Repeat(true, 32))
  {
    hide Bits, Divide, UpdateAll, Crc, Pow2, Message, Remainder;
    Pow2Values();
    TableIsDivision(data);
    DivideIsRemainder(0xFFFF_FFFF, data);
    Ones(Pow2(WIDTH) - 1, WIDTH);
    BitsNot(Divide(0xFFFF_FFFF, data), WIDTH);
  }

  lemma {:induction false} Ones(c: nat, n: nat)
    requires c == Pow2(n) - 1
    ensures Bits(c, n) == Repeat(true, n)
  {
    if n > 0 {
      Ones(c / 2, n - 1);
    }
  }

  lemma {:induction false} BitsNot(c: nat, n: nat)
    requires c < Pow2(n)
    ensures Bits(Pow2(n) - 1 - c, n) == XorBits(Bits(c, n), Repeat(true, n))
  {
    if n > 0 {
      assert (Pow2(n) - 1 - c) / 2 == Pow2(n - 1) - 1 - c / 2;
      BitsNot(c / 2, n - 1);
    }
  }
}
