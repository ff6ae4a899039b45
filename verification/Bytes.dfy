/** Bytes, fixed-width little-endian numbers, and overwriting a stretch of a buffer. */
module Bytes {
  import opened Arithmetic

  type Byte = x: int | 0 <= x < 0x100
  type U16 = x: int | 0 <= x < 0x1_0000
  type U32 = x: int | 0 <= x < 0x1_0000_0000
  type U64 = x: int | 0 <= x < 0x1_0000_0000_0000_0000

  function Pow256(k: nat): (p: nat)
    ensures p > 0
  {
    if k == 0 then 1 else 256 * Pow256(k - 1)
  }

  function Pow2(n: nat): (p: nat)
    ensures p > 0
  {
    if n == 0 then 1 else 2 * Pow2(n - 1)
  }

  lemma Widths()
    ensures Pow256(2) == 0x1_0000
    ensures Pow256(4) == 0x1_0000_0000
    ensures Pow256(8) == 0x1_0000_0000_0000_0000
  {
  }

  /** The low `width` bytes of `v`, least significant first: the program's truncating `as uN`
      followed by `to_le_bytes`. */
  function LE(width: nat, v: nat): (s: seq<Byte>)
    ensures |s| == width
  {
    seq(width, i requires 0 <= i < width => v / Pow256(i) % 256)
  }

  lemma LETail(width: nat, v: nat)
    requires width > 0
    ensures LE(width, v) == [v % 256] + LE(width - 1, v / 256)
  {
    forall i | 0 < i < width
      ensures LE(width, v)[i] == LE(width - 1, v / 256)[i - 1]
    {
      DivTwice(v, Pow256(i - 1));
    }
  }

  lemma DivTwice(v: nat, p: nat)
    requires p > 0
    ensures v / (256 * p) == v / 256 / p
  {
    var q, r := v / 256 / p, v / 256 % p;
    assert v / 256 == q * p + r;
    assert v == (256 * p) * q + (256 * r + v % 256);
    DivModUnique(v, 256 * p, q, 256 * r + v % 256);
  }

  /** The number a little-endian byte string denotes (`from_le_bytes`). */
  function Value(s: seq<Byte>): (v: nat)
    ensures v < Pow256(|s|)
  {
    if |s| == 0 then 0 else s[0] + 256 * Value(s[1..])
  }

  lemma {:induction false} ValueOfLE(width: nat, v: nat)
    ensures Value(LE(width, v)) == v % Pow256(width)
  {
    if width > 0 {
      ValueOfLE(width - 1, v / 256);
      LETail(width, v);
      assert LE(width, v)[1..] == LE(width - 1, v / 256);
      ModSplit(v, Pow256(width - 1));
    }
  }

  lemma ModSplit(v: nat, p: nat)
    requires p > 0
    ensures v % (256 * p) == v % 256 + 256 * ((v / 256) % p)
  {
    var q, r := v / 256 / p, v / 256 % p;
    assert v / 256 == q * p + r;
    assert v == 256 * (v / 256) + v % 256 == (256 * p) * q + (256 * r + v % 256);
    DivModUnique(v, 256 * p, q, 256 * r + v % 256);
  }

  lemma MulMonotone(a: nat, b: nat, p: nat)
    requires a <= b
    ensures a * p <= b * p
  {
  }

  lemma {:induction false} LEOfValue(s: seq<Byte>)
    ensures LE(|s|, Value(s)) == s
  {
    if |s| > 0 {
      LEOfValue(s[1..]);
      LETail(|s|, Value(s));
      assert Value(s) % 256 == s[0] && Value(s) / 256 == Value(s[1..]);
      assert s == [s[0]] + s[1..];
    }
  }

  /** A value that fits its width survives encoding. */
  lemma {:induction false} ValueFits(width: nat, v: nat)
    requires v < Pow256(width)
    ensures Value(LE(width, v)) == v
  {
    ValueOfLE(width, v);
    DivModUnique(v, Pow256(width), 0, v);
  }

  lemma {:induction false} ValueInjective(s: seq<Byte>, t: seq<Byte>)
    requires |s| == |t| && Value(s) == Value(t)
    ensures s == t
  {
    LEOfValue(s);
    LEOfValue(t);
  }

  function ReadU16(s: seq<Byte>, off: nat): U16
    requires off + 2 <= |s|
  {
    Widths();
    Value(s[off..off + 2])
  }

  function ReadU32(s: seq<Byte>, off: nat): U32
    requires off + 4 <= |s|
  {
    Widths();
    Value(s[off..off + 4])
  }

  function ReadU64(s: seq<Byte>, off: nat): U64
    requires off + 8 <= |s|
  {
    Widths();
    Value(s[off..off + 8])
  }

  /** The fixed widths, spelled out. */
  lemma U16Is(s: seq<Byte>, off: nat)
    requires off + 2 <= |s|
    ensures ReadU16(s, off) as int == s[off] as int + 0x100 * s[off + 1] as int
  {
    FourBytes(s[off..off + 2]);
  }

  lemma U32Is(s: seq<Byte>, off: nat)
    requires off + 4 <= |s|
    ensures ReadU32(s, off) as int ==
            s[off] as int + 0x100 * s[off + 1] as int + 0x1_0000 * s[off + 2] as int + 0x100_0000 * s[off + 3] as int
  {
    FourBytes(s[off..off + 4]);
  }

  lemma U64Is(s: seq<Byte>, off: nat)
    requires off + 8 <= |s|
    ensures ReadU64(s, off) as int == ReadU32(s, off) as int + 0x1_0000_0000 * ReadU32(s, off + 4) as int
  {
    var t := s[off..off + 8];
    FourBytes(t);
    FourBytes(t[4..]);
    U32Is(s, off);
    U32Is(s, off + 4);
  }

  /** What the first bytes of a string add to the number it denotes. */
  lemma {:induction false} FourBytes(s: seq<Byte>)
    ensures |s| == 2 ==> Value(s) == s[0] as int + 0x100 * s[1] as int
    ensures |s| >= 4 ==>
              Value(s) == s[0] as int + 0x100 * s[1] as int + 0x1_0000 * s[2] as int + 0x100_0000 * s[3] as int
                          + 0x1_0000_0000 * Value(s[4..])
  {
    if |s| >= 4 {
      assert s[1..][1..] == s[2..] && s[2..][1..] == s[3..] && s[3..][1..] == s[4..];
      assert s[1..][0] == s[1] && s[2..][0] == s[2] && s[3..][0] == s[3];
      assert Value(s) == s[0] + 256 * Value(s[1..]);
      assert Value(s[1..]) == s[1] + 256 * Value(s[2..]);
      assert Value(s[2..]) == s[2] + 256 * Value(s[3..]);
      assert Value(s[3..]) == s[3] + 256 * Value(s[4..]);
    } else if |s| == 2 {
      assert s[1..][1..] == [] && Value(s[1..]) == s[1] + 256 * Value(s[1..][1..]);
    }
  }

  /** The bytes of a number, spelled out for the widths in use. */
  lemma LEIs(v: nat)
    ensures LE(2, v) == [v % 0x100, v / 0x100 % 0x100]
    ensures LE(4, v) == [v % 0x100, v / 0x100 % 0x100, v / 0x1_0000 % 0x100, v / 0x100_0000 % 0x100]
    ensures LE(8, v) == LE(4, v) + LE(4, v / 0x1_0000_0000)
  {
    assert Pow256(1) == 0x100 && Pow256(2) == 0x1_0000 && Pow256(3) == 0x100_0000 && Pow256(4) == 0x1_0000_0000;
    forall i: nat | i < 4 ensures LE(8, v)[4 + i] == LE(4, v / 0x1_0000_0000)[i] {
      PowSplit(i);
      DivProduct(v, Pow256(i));
    }
  }

  lemma {:induction false} PowSplit(i: nat)
    ensures Pow256(4 + i) == 0x1_0000_0000 * Pow256(i)
  {
    if i == 0 {
      Widths();
    } else {
      PowSplit(i - 1);
    }
  }

  lemma DivProduct(v: nat, p: nat)
    requires p > 0
    ensures v / (0x1_0000_0000 * p) == v / 0x1_0000_0000 / p
  {
    var q, r := v / 0x1_0000_0000 / p, v / 0x1_0000_0000 % p;
    DivModUnique(v, 0x1_0000_0000 * p, q, 0x1_0000_0000 * r + v % 0x1_0000_0000);
  }

  function Zeros(n: nat): (s: seq<Byte>)
    ensures |s| == n
  {
    seq(n, _ => 0)
  }

  /** `buf` with the bytes from `off` on replaced by `s`. */
  function Splice(buf: seq<Byte>, off: nat, s: seq<Byte>): (r: seq<Byte>)
    requires off + |s| <= |buf|
    ensures |r| == |buf|
  {
    buf[..off] + s + buf[off + |s|..]
  }

  lemma SliceOfSlice(a: seq<Byte>, lo: nat, hi: nat, i: nat, j: nat)
    requires lo <= hi <= |a| && i <= j <= hi - lo
    ensures a[lo..hi][i..j] == a[lo + i..lo + j]
  {
    var s, t := a[lo..hi][i..j], a[lo + i..lo + j];
    forall k | 0 <= k < j - i
      ensures s[k] == t[k]
    {
      assert s[k] == a[lo..hi][i + k] == a[lo + i + k];
    }
  }

  /** Buffers that agree on a stretch agree on every part of it. */
  lemma SubSame(a: seq<Byte>, i: nat, b: seq<Byte>, j: nat, m: nat, lo: nat, hi: nat)
    requires i + m <= |a| && j + m <= |b| && a[i..i + m] == b[j..j + m] && lo <= hi <= m
    ensures a[i + lo..i + hi] == b[j + lo..j + hi]
  {
    SliceOfSlice(a, i, i + m, lo, hi);
    SliceOfSlice(b, j, j + m, lo, hi);
  }

  lemma SpliceInside(buf: seq<Byte>, off: nat, s: seq<Byte>)
    requires off + |s| <= |buf|
    ensures Splice(buf, off, s)[off..off + |s|] == s
  {
  }

  /** A stretch disjoint from the overwritten one keeps its bytes. */
  lemma SpliceOutside(buf: seq<Byte>, off: nat, s: seq<Byte>, lo: nat, hi: nat)
    requires off + |s| <= |buf| && lo <= hi <= |buf|
    requires hi <= off || off + |s| <= lo
    ensures Splice(buf, off, s)[lo..hi] == buf[lo..hi]
  {
  }

  lemma SpliceCommutes(buf: seq<Byte>, p: nat, x: seq<Byte>, q: nat, y: seq<Byte>)
    requires p + |x| <= |buf| && q + |y| <= |buf|
    requires p + |x| <= q || q + |y| <= p
    ensures Splice(Splice(buf, p, x), q, y) == Splice(Splice(buf, q, y), p, x)
  {
  }

  lemma SpliceAgain(buf: seq<Byte>, p: nat, x: seq<Byte>, y: seq<Byte>)
    requires p + |x| <= |buf| && |x| == |y|
    ensures Splice(Splice(buf, p, x), p, y) == Splice(buf, p, y)
    ensures Splice(buf, p, buf[p..p + |x|]) == buf
  {
  }

  /** Overwriting part of a stretch overwrites the stretch with its edited self. */
  lemma SpliceWithin(buf: seq<Byte>, at: nat, m: nat, off: nat, s: seq<Byte>)
    requires at + m <= |buf| && off + |s| <= m
    ensures Splice(buf, at + off, s) == Splice(buf, at, Splice(buf[at..at + m], off, s))
  {
  }

  lemma SpliceTail(buf: seq<Byte>, lo: nat, at: nat, s: seq<Byte>)
    requires lo <= at && at + |s| <= |buf|
    ensures Splice(buf, at, s)[lo..] == Splice(buf[lo..], at - lo, s)
  {
  }

  lemma SpliceMiddle(p: seq<Byte>, m: seq<Byte>, q: seq<Byte>, s: seq<Byte>)
    requires |s| == |m|
    ensures Splice(p + m + q, |p|, s) == p + s + q
  {
  }

  lemma Assoc(p: seq<Byte>, a: seq<Byte>, b: seq<Byte>)
    ensures p + a + b == p + (a + b)
  {
  }

  /** Overwrites `a` from `off` on (`copy_from_slice` into a slice). */
  method CopyInto(a: array<Byte>, off: nat, s: seq<Byte>)
    requires off + |s| <= a.Length
    modifies a
    ensures a[..] == Splice(old(a[..]), off, s)
  {
    forall i | 0 <= i < |s| {
      a[off + i] := s[i];
    }
  }

  /** Fills the next field of a zeroed buffer. */
  method PutNext(h: array<Byte>, ghost filled: seq<Byte>, off: nat, field: seq<Byte>)
    requires off == |filled| && |filled| + |field| <= h.Length
    requires h[..] == filled + Zeros(h.Length - |filled|)
    modifies h
    ensures h[..] == filled + field + Zeros(h.Length - |filled| - |field|)
  {
    CopyInto(h, off, field);
  }

  /** Overwriting at the end of what is filled so far. */
  lemma FillNext(filled: seq<Byte>, n: nat, s: seq<Byte>)
    requires |s| <= n
    ensures Splice(filled + Zeros(n), |filled|, s) == filled + s + Zeros(n - |s|)
  {
  }

  lemma SpliceMore(b: seq<Byte>, at: nat, s: seq<Byte>, t: seq<Byte>)
    requires at + |s| + |t| <= |b|
    ensures Splice(Splice(b, at, s), at + |s|, t) == Splice(b, at, s + t)
  {
  }
}
