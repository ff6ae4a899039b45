/** The CRC-32 of partition tables: a lookup table against bit-at-a-time division.
    Words are natural numbers below 2^32; exclusive-or is defined bit by bit. */
module Crc32 {
  import opened Arithmetic
  import opened Bytes

  const POLY: nat := 0xEDB88320
  const BITS: nat := 8

  function Xor(a: nat, b: nat): (r: nat)
    decreases a + b
  {
    if a == 0 && b == 0 then 0
    else 2 * Xor(a / 2, b / 2) + (if a % 2 != b % 2 then 1 else 0)
  }

  lemma {:induction false} XorSelf(a: nat)
    ensures Xor(a, a) == 0
  {
    if a > 0 {
      XorSelf(a / 2);
    }
  }

  lemma {:induction false} XorZero(a: nat)
    ensures Xor(a, 0) == a == Xor(0, a)
  {
    if a > 0 {
      XorZero(a / 2);
    }
  }

  lemma {:induction false} XorComm(a: nat, b: nat)
    ensures Xor(a, b) == Xor(b, a)
    decreases a + b
  {
    if a > 0 || b > 0 {
      XorComm(a / 2, b / 2);
    }
  }

  lemma {:induction false} XorHalf(a: nat, b: nat)
    ensures Xor(a, b) / 2 == Xor(a / 2, b / 2)
    ensures Xor(a, b) % 2 == (if a % 2 != b % 2 then 1 else 0)
  {
  }

  lemma {:induction false} XorAssoc(a: nat, b: nat, c: nat)
    ensures Xor(Xor(a, b), c) == Xor(a, Xor(b, c))
    decreases a + b + c
  {
    if a > 0 || b > 0 || c > 0 {
      XorAssoc(a / 2, b / 2, c / 2);
      XorHalf(a, b);
      XorHalf(b, c);
      XorHalf(Xor(a, b), c);
      XorHalf(a, Xor(b, c));
    }
  }

  /** Exclusive-or with a fixed word is injective. */
  lemma {:induction false} XorCancel(a: nat, b: nat, c: nat)
    requires Xor(a, c) == Xor(b, c)
    ensures a == b
  {
    XorAssoc(a, c, c);
    XorAssoc(b, c, c);
    XorSelf(c);
    XorZero(a);
    XorZero(b);
  }

  lemma {:induction false} XorBound(a: nat, b: nat, n: nat)
    requires a < Pow2(n) && b < Pow2(n)
    ensures Xor(a, b) < Pow2(n)
  {
    if n > 0 {
      XorBound(a / 2, b / 2, n - 1);
    }
  }

  /** A top bit set in only one operand stays set. */
  lemma {:induction false} XorTopBit(a: nat, b: nat, n: nat)
    requires a < Pow2(n) <= b < Pow2(n + 1)
    ensures Xor(a, b) >= Pow2(n)
  {
    if n > 0 {
      XorTopBit(a / 2, b / 2, n - 1);
    }
  }

  lemma Pow2Values()
    ensures Pow2(8) == 0x100 && Pow2(31) == 0x8000_0000 && Pow2(32) == 0x1_0000_0000
  {
    assert Pow2(4) == 16;
    assert Pow2(8) == 16 * Pow2(4);
    assert Pow2(12) == 16 * Pow2(8);
    assert Pow2(16) == 16 * Pow2(12);
    assert Pow2(20) == 16 * Pow2(16);
    assert Pow2(24) == 16 * Pow2(20);
    assert Pow2(28) == 16 * Pow2(24);
    assert Pow2(31) == 8 * Pow2(28);
  }

  /** One division step: shift out the low bit and subtract the polynomial if it was set. */
  function Step(c: U32): (r: U32) {
    Pow2Values();
    XorBound(c / 2, POLY, 32);
    if c % 2 != 0 then Xor(c / 2, POLY) else c / 2
  }

  function Steps(c: U32, n: nat): U32
    decreases n
  {
    if n == 0 then c else Steps(Step(c), n - 1)
  }

  function XorU32(a: U32, b: U32): U32 {
    Pow2Values();
    XorBound(a, b, 32);
    Xor(a, b)
  }

  function XorByte(a: Byte, b: Byte): Byte {
    Pow2Values();
    XorBound(a, b, 8);
    Xor(a, b)
  }

  function Not(c: U32): U32 {
    0xFFFF_FFFF - c
  }

  // ----- The reference: one bit of the message at a time

  /** The message bit `b` enters the register at the low end. */
  function FeedBit(c: U32, b: Byte): U32
    requires b < 2
  {
    if c % 2 != b then XorU32(c / 2, POLY) else c / 2
  }

  function FeedBits(c: U32, byte: Byte, n: nat): U32
    decreases n
  {
    if n == 0 then c else FeedBits(FeedBit(c, byte % 2), byte / 2, n - 1)
  }

  function Divide(c: U32, data: seq<Byte>): U32
    decreases |data|
  {
    if data == [] then c else Divide(FeedBits(c, data[0], BITS), data[1..])
  }

  /** The remainder of the division, with the register preset to ones and inverted at the end. */
  function BitwiseCrc(data: seq<Byte>): U32 {
    Not(Divide(0xFFFF_FFFF, data))
  }

  // ----- The table-driven algorithm

  function TableEntry(i: Byte): U32 {
    Steps(i, BITS)
  }

  ghost predicate IsTable(table: seq<U32>) {
    |table| == 256 && forall i: Byte :: table[i] == TableEntry(i)
  }

  function Update(c: U32, byte: Byte): U32 {
    XorU32(TableEntry(XorByte(c % 256, byte)), c / 256)
  }

  function UpdateAll(c: U32, data: seq<Byte>): U32
    decreases |data|
  {
    if data == [] then c else UpdateAll(Update(c, data[0]), data[1..])
  }

  function Crc(data: seq<Byte>): U32 {
    Not(UpdateAll(0xFFFF_FFFF, data))
  }

  lemma {:induction false} StepsAppend(c: U32, n: nat)
    ensures Steps(c, n + 1) == Step(Steps(c, n))
    decreases n
  {
    if n > 0 {
      StepsAppend(Step(c), n - 1);
    }
  }

  lemma {:induction false} UpdateAllAppend(c: U32, data: seq<Byte>, byte: Byte)
    ensures UpdateAll(c, data + [byte]) == Update(UpdateAll(c, data), byte)
    decreases |data|
  {
    if data == [] {
      assert [byte][1..] == [];
    } else {
      assert (data + [byte])[1..] == data[1..] + [byte];
      UpdateAllAppend(Update(c, data[0]), data[1..], byte);
    }
  }

  /** The inner loop of the table construction. */
  method BuildEntry(i: Byte) returns (crc: U32)
    ensures crc == Steps(i, BITS)
  {
    crc := i;
    var j := 0;
    while j < BITS
      invariant 0 <= j <= BITS
      invariant crc == Steps(i, j)
    {
      StepsAppend(i, j);
      crc := Step(crc);
      j := j + 1;
    }
  }

  method BuildTable() returns (table: array<U32>)
    ensures fresh(table) && table.Length == 256
    ensures IsTable(table[..])
  {
    table := new U32[256](_ => 0);
    var i := 0;
    while i < 256
      invariant 0 <= i <= 256
      invariant forall k: Byte | k < i :: table[k] == TableEntry(k)
    {
      table[i] := BuildEntry(i);
      i := i + 1;
    }
  }

  method ComputeCrc(table: array<U32>, data: seq<Byte>) returns (r: U32)
    requires IsTable(table[..])
    ensures r == BitwiseCrc(data)
  {
    var crc: U32 := 0xFFFF_FFFF;
    for i := 0 to |data|
      invariant crc == UpdateAll(0xFFFF_FFFF, data[..i])
    {
      assert data[..i + 1] == data[..i] + [data[i]];
      UpdateAllAppend(0xFFFF_FFFF, data[..i], data[i]);
      crc := XorU32(table[XorByte(crc % 256, data[i])], crc / 256);
    }
    assert data[..|data|] == data;
    r := Not(crc);
    TableIsDivision(data);
  }

  // ----- The two agree

  lemma StepLinear(a: U32, b: U32)
    ensures Step(XorU32(a, b)) == XorU32(Step(a), Step(b))
  {
    XorHalf(a, b);
    var h, k := a / 2, b / 2;
    if a % 2 != 0 && b % 2 != 0 {
      XorAssoc(h, POLY, Xor(k, POLY));
      XorComm(k, POLY);
      XorAssoc(POLY, POLY, k);
      XorSelf(POLY);
      XorZero(k);
    } else if a % 2 != 0 {
      XorAssoc(h, POLY, k);
      XorAssoc(h, k, POLY);
      XorComm(k, POLY);
    } else if b % 2 != 0 {
      XorAssoc(h, k, POLY);
    }
  }

  lemma {:induction false} StepsLinear(a: U32, b: U32, n: nat)
    ensures Steps(XorU32(a, b), n) == XorU32(Steps(a, n), Steps(b, n))
    decreases n
  {
    if n > 0 {
      StepLinear(a, b);
      StepsLinear(Step(a), Step(b), n - 1);
    }
  }

  lemma {:induction false} StepsShift(c: U32, k: nat, n: nat)
    requires c == Pow2(n) * k
    ensures Steps(c, n) == k
    decreases n
  {
    hide Step;
    if n > 0 {
      var d := Pow2(n - 1) * k;
      DoubleProduct(Pow2(n - 1), k);
      StepOfDouble(c, d);
      StepsShift(d, k, n - 1);
    }
  }

  lemma StepOfDouble(c: U32, d: nat)
    requires c == 2 * d
    ensures d == Step(c)
  {
  }

  /** Adding a multiple of 2^n to a number below 2^n is an exclusive-or. */
  lemma {:induction false} XorAdd(lo: nat, hi: nat, k: nat, n: nat)
    requires lo < Pow2(n) && hi == Pow2(n) * k
    ensures Xor(lo, hi) == lo + hi
  {
    if n == 0 {
      XorZero(hi);
    } else {
      var h := Pow2(n - 1) * k;
      DoubleProduct(Pow2(n - 1), k);
      XorAdd(lo / 2, h, k, n - 1);
      assert hi / 2 == h && hi % 2 == 0;
    }
  }

  lemma DoubleProduct(p: nat, k: nat)
    ensures (2 * p) * k == 2 * (p * k)
  {
  }

  lemma HalfSplit(c: nat, p: nat)
    requires p > 0
    ensures (c % (2 * p)) % 2 == c % 2 && (c % (2 * p)) / 2 == (c / 2) % p
    ensures ((2 * p) * (c / (2 * p))) % 2 == 0
    ensures (2 * p) * (c / (2 * p)) / 2 == p * (c / 2 / p)
  {
    var q, r := c / 2 / p, c / 2 % p;
    assert c / 2 == p * q + r;
    assert c == (2 * p) * q + (2 * r + c % 2);
    DivModUnique(c, 2 * p, q, 2 * r + c % 2);
    assert (2 * p) * q == 2 * (p * q);
  }

  /** `n` division steps of a word depend on its low `n` bits; the rest is only shifted. */
  lemma {:induction false} StepsByLowBits(c: U32, lo: U32, hi: U32, k: U32, n: nat)
    requires lo < Pow2(n) && hi == Pow2(n) * k && c == lo + hi
    ensures Steps(c, n) == XorU32(Steps(lo, n), k)
  {
    XorAdd(lo, hi, k, n);
    StepsLinear(lo, hi, n);
    StepsShift(hi, k, n);
  }

  /** Eight division steps of a word touch the table only at its low byte. */
  lemma {:induction false} StepsByTable(c: U32)
    ensures Steps(c, BITS) == XorU32(TableEntry(c % 256), c / 256)
  {
    Pow2Values();
    StepsByLowBits(c, c % 256, 256 * (c / 256), c / 256, BITS);
  }

  /** The per-byte update is eight division steps of the register with the byte added in. */
  lemma UpdateIsSteps(c: U32, byte: Byte)
    ensures Update(c, byte) == Steps(XorU32(c, byte), BITS)
  {
    Pow2Values();
    XorLow(c, byte, BITS);
    StepsByTable(XorU32(c, byte));
  }

  lemma {:induction false} XorLow(c: nat, b: nat, n: nat)
    requires b < Pow2(n)
    ensures Xor(c, b) % Pow2(n) == Xor(c % Pow2(n), b)
    ensures Xor(c, b) / Pow2(n) == c / Pow2(n)
  {
    if n == 0 {
      XorZero(c);
    } else {
      var p := Pow2(n - 1);
      XorLow(c / 2, b / 2, n - 1);
      XorHalf(c, b);
      XorHalf(c % (2 * p), b);
      HalfSplit(c, p);
      HalfSplit(Xor(c, b), p);
      DivDiv(c, p);
      DivDiv(Xor(c, b), p);
    }
  }

  lemma DivDiv(c: nat, p: nat)
    requires p > 0
    ensures c / (2 * p) == c / 2 / p
  {
    var q, r := c / 2 / p, c / 2 % p;
    assert c == (2 * p) * q + (2 * r + c % 2);
    DivModUnique(c, 2 * p, q, 2 * r + c % 2);
  }

  /** Feeding the bits of a byte one at a time, or adding the byte first: the same register. */
  lemma {:induction false} FeedBitsIsSteps(c: U32, byte: Byte, n: nat)
    requires byte < Pow2(n)
    ensures FeedBits(c, byte, n) == Steps(XorU32(c, byte), n)
    decreases n
  {
    if n == 0 {
      XorZero(c);
    } else {
      var b, rest := byte % 2, byte / 2;
      FeedBitsIsSteps(FeedBit(c, b), rest, n - 1);
      assert Step(XorU32(c, byte)) == XorU32(FeedBit(c, b), rest) by {
        XorHalf(c, byte);
        if c % 2 != b {
          XorAssoc(c / 2, rest, POLY);
          XorComm(rest, POLY);
          XorAssoc(c / 2, POLY, rest);
        }
      }
    }
  }

  /** The table-driven checksum is bit-at-a-time division, for every byte string. */
  lemma TableIsDivision(data: seq<Byte>)
    ensures Crc(data) == BitwiseCrc(data)
  {
    UpdateAllIsDivide(0xFFFF_FFFF, data);
  }

  lemma {:induction false} UpdateAllIsDivide(c: U32, data: seq<Byte>)
    ensures UpdateAll(c, data) == Divide(c, data)
    decreases |data|
  {
    if data != [] {
      Pow2Values();
      UpdateIsSteps(c, data[0]);
      FeedBitsIsSteps(c, data[0], BITS);
      UpdateAllIsDivide(Update(c, data[0]), data[1..]);
    }
  }

  // ----- One changed byte is always noticed

  lemma StepInjective(a: U32, b: U32)
    requires Step(a) == Step(b)
    ensures a == b
  {
    Pow2Values();
    XorTopBit(a / 2, POLY, 31);
    XorTopBit(b / 2, POLY, 31);
    if a % 2 != 0 && b % 2 != 0 {
      XorCancel(a / 2, b / 2, POLY);
    }
  }

  lemma {:induction false} StepsInjective(a: U32, b: U32, n: nat)
    requires Steps(a, n) == Steps(b, n)
    ensures a == b
    decreases n
  {
    if n > 0 {
      StepsInjective(Step(a), Step(b), n - 1);
      StepInjective(a, b);
    }
  }

  /** The update is injective in the register for a fixed byte and in the byte for a fixed register. */
  lemma UpdateInjective(c: U32, d: U32, x: Byte, y: Byte)
    requires Update(c, x) == Update(d, y)
    ensures c == d <==> x == y
  {
    UpdateIsSteps(c, x);
    UpdateIsSteps(d, y);
    StepsInjective(XorU32(c, x), XorU32(d, y), BITS);
    if c == d {
      XorComm(c, x);
      XorComm(d, y);
      XorCancel(x, y, c);
    } else if x == y {
      XorCancel(c, d, x);
    }
  }

  lemma {:induction false} UpdateAllInjective(c: U32, d: U32, data: seq<Byte>)
    requires UpdateAll(c, data) == UpdateAll(d, data)
    ensures c == d
    decreases |data|
  {
    if data != [] {
      UpdateAllInjective(Update(c, data[0]), Update(d, data[0]), data[1..]);
      UpdateInjective(c, d, data[0], data[0]);
    }
  }

  lemma {:induction false} UpdateAllDetects(c: U32, data: seq<Byte>, i: nat, v: Byte)
    requires i < |data| && v != data[i]
    ensures UpdateAll(c, data[i := v]) != UpdateAll(c, data)
    decreases |data|
  {
    if i == 0 {
      assert data[i := v][1..] == data[1..];
      if UpdateAll(c, data[i := v]) == UpdateAll(c, data) {
        UpdateAllInjective(Update(c, v), Update(c, data[0]), data[1..]);
        UpdateInjective(c, c, v, data[0]);
      }
    } else {
      assert data[i := v][1..] == data[1..][i - 1 := v];
      UpdateAllDetects(Update(c, data[0]), data[1..], i - 1, v);
    }
  }

  /** Two inputs that differ in exactly one byte never share a checksum. */
  lemma OneByteDetected(data: seq<Byte>, i: nat, v: Byte)
    requires i < |data| && v != data[i]
    ensures Crc(data[i := v]) != Crc(data)
  {
    UpdateAllDetects(0xFFFF_FFFF, data, i, v);
  }
}
