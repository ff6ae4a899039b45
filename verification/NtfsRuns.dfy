/** Data runs: the variable-width list of extents of a non-resident attribute. */
module NtfsRuns {
  import opened Wrappers
  import opened Arithmetic
  import opened Bytes
  import opened NtfsTypes

  type Extents = seq<(nat, nat)>

  const I64_LIMIT: int := 0x8000_0000_0000_0000

  /** A sign-extended little-endian number. */
  function Signed(s: seq<Byte>): int {
    if s != [] && s[|s| - 1] >= 128 then Value(s) - Pow256(|s|) else Value(s)
  }

  /** One decoded header: widths of the length and of the delta. */
  predicate Usable(s: seq<Byte>) {
    s != [] && 1 <= s[0] % 16 <= 8 && s[0] / 16 <= 8 && 1 + s[0] % 16 + s[0] / 16 <= |s|
  }

  function RunLength(s: seq<Byte>): nat
    requires Usable(s)
    ensures 1 < RunLength(s) <= |s|
  {
    1 + s[0] % 16 + s[0] / 16
  }

  /** The run encoded at the start of `s`, with `prev` the cluster the previous run started at. Sign
      extension of an eight-byte delta shifts a 64-bit number by 64, which is a checked error. */
  function FirstRun(s: seq<Byte>, prev: int): (r: Outcome<(nat, nat)>)
    requires Usable(s)
  {
    var lw, dw := s[0] % 16, s[0] / 16;
    var delta := Signed(s[1 + lw..1 + lw + dw]);
    if dw == 8 && delta < 0 then Failure(Panicked)
    else if prev + delta < 0 || prev + delta >= I64_LIMIT then Failure(CorruptedFilesystem)
    else Success((prev + delta, Value(s[1..1 + lw])))
  }

  /** Prepending runs already decoded. */
  function Onto(done: Extents, r: Outcome<Extents>): Outcome<Extents> {
    if r.Success? then Success(done + r.value) else r
  }

  /** The decoder stops at a zero header and also, silently, at one that is malformed or cut off. */
  function DecodeRuns(s: seq<Byte>, prev: int): Outcome<Extents> {
    if !Usable(s) then Success([])
    else
      var run :- FirstRun(s, prev);
      Onto([run], DecodeRuns(s[RunLength(s)..], run.0))
  }

  function ParseDataRuns(attr: seq<Byte>): Outcome<Extents> {
    if |attr| < 64 || attr[8] != 1 then Failure(InvalidAttribute)
    else
      var at := ReadU16(attr, 32);
      if at == 0 then Success([])
      else if at < 64 || at >= |attr| then Failure(InvalidAttribute)
      else if ReadU64(attr, 40) == 0 then Success([])
      else DecodeRuns(attr[at..], 0)
  }

  // ----- The program's loop

  lemma {:induction false} ValueAppend(s: seq<Byte>, b: Byte)
    ensures Value(s + [b]) == Value(s) + b * Pow256(|s|)
  {
    if s == [] {
      assert s + [b] == [b] && [b][1..] == [];
    } else {
      assert (s + [b])[1..] == s[1..] + [b] && (s + [b])[0] == s[0];
      ValueAppend(s[1..], b);
      Regroup(b, Pow256(|s| - 1));
    }
  }

  lemma Regroup(b: nat, p: nat)
    ensures 256 * (b * p) == b * (256 * p)
  {
  }

  /** Bitwise or. */
  function Or(a: nat, b: nat): (r: nat)
    decreases a + b
  {
    if a == 0 && b == 0 then 0
    else 2 * Or(a / 2, b / 2) + (if a % 2 == 1 || b % 2 == 1 then 1 else 0)
  }

  /** Or-ing a number shifted past every bit of another adds it. */
  lemma {:induction false} OrShifted(a: nat, b: nat, k: nat)
    requires a < Pow2(k)
    ensures Or(a, b * Pow2(k)) == a + b * Pow2(k)
    decreases k, b
  {
    if k > 0 {
      assert b * Pow2(k) == 2 * (b * Pow2(k - 1)) by {
        Halves(b, Pow2(k - 1));
      }
      OrShifted(a / 2, b, k - 1);
    } else if b > 0 {
      OrShifted(0, b / 2, 0);
    }
  }

  lemma Halves(b: nat, p: nat)
    ensures b * (2 * p) == 2 * (b * p)
  {
  }

  lemma FourMore(n: nat)
    ensures Pow2(n + 4) == 16 * Pow2(n)
  {
    assert Pow2(n + 2) == 4 * Pow2(n);
  }

  lemma {:induction false} ByteShift(i: nat)
    ensures Pow256(i) == Pow2(8 * i)
  {
    if i > 0 {
      ByteShift(i - 1);
      FourMore(8 * (i - 1));
      FourMore(8 * (i - 1) + 4);
    }
  }

  lemma {:induction false} OrByte(s: seq<Byte>, b: Byte)
    ensures Or(Value(s), b * Pow2(8 * |s|)) == Value(s) + b * Pow256(|s|)
  {
    hide Or, Value;
    ByteShift(|s|);
    OrShifted(Value(s), b, 8 * |s|);
  }

  lemma {:induction false} NoBytes(s: seq<Byte>)
    requires |s| == 0
    ensures Value(s) == 0
  {
  }

  /** The inner loops: or-ing shifted bytes into an accumulator, one after another. */
  method GatherBytes(attr: seq<Byte>, at: nat, n: nat) returns (v: nat)
    requires at + n <= |attr|
    ensures v == Value(attr[at..at + n])
  {
    hide Or, Pow2, Value;
    v := 0;
    NoBytes(attr[at..at]);
    for i := 0 to n
      invariant v == Value(attr[at..at + i])
    {
      assert attr[at..at + i + 1] == attr[at..at + i] + [attr[at + i]];
      ValueAppend(attr[at..at + i], attr[at + i]);
      OrByte(attr[at..at + i], attr[at + i]);
      v := Or(v, attr[at + i] * Pow2(8 * i));
    }
  }

  method ParseRuns(attr: seq<Byte>) returns (r: Outcome<Extents>)
    ensures r == ParseDataRuns(attr)
  {
    if |attr| < 64 || attr[8] != 1 {
      return Failure(InvalidAttribute);
    }
    var at := ReadU16(attr, 32);
    if at == 0 {
      return Success([]);
    }
    if at < 64 || at >= |attr| {
      return Failure(InvalidAttribute);
    }
    if ReadU64(attr, 40) == 0 {
      return Success([]);
    }
    r := ParseRunsFrom(attr, at);
  }

  method ParseRunsFrom(attr: seq<Byte>, at: nat) returns (r: Outcome<Extents>)
    requires at <= |attr|
    ensures r == DecodeRuns(attr[at..], 0)
  {
    hide FirstRun, Onto, RunLength;
    var runs: Extents := [];
    var offset, prev := at, 0;
    ghost var goal := DecodeRuns(attr[at..], 0);
    OntoNothing(goal);
    while offset < |attr|
      invariant at <= offset <= |attr| && prev >= 0
      invariant goal == Onto(runs, DecodeRuns(attr[offset..], prev))
      decreases |attr| - offset
    {
      var run, width := ParseOneRun(attr, offset, prev);
      if width == 0 {
        break;
      }
      if run.Failure? {
        OntoFails(runs, run.error);
        return run.PropagateFailure();
      }
      OntoMore(runs, run.value, DecodeRuns(attr[offset + width..], run.value.0));
      assert attr[offset..][width..] == attr[offset + width..];
      runs := runs + [run.value];
      prev := run.value.0;
      offset := offset + width;
    }
    assert !Usable(attr[offset..]);
    OntoEnd(runs);
    return Success(runs);
  }

  /** One turn of the loop; no width stands for leaving the loop. */
  method ParseOneRun(attr: seq<Byte>, offset: nat, prev: nat) returns (run: Outcome<(nat, nat)>, width: nat)
    requires offset < |attr|
    ensures width == 0 <==> !Usable(attr[offset..])
    ensures width > 0 ==> width == RunLength(attr[offset..]) && run == FirstRun(attr[offset..], prev)
  {
    hide Value, Pow256;
    ghost var s := attr[offset..];
    var header := attr[offset];
    assert s[0] == header;
    if header == 0 {
      return Success((0, 0)), 0;
    }
    var lw, dw := header % 16, header / 16;
    if lw == 0 || lw > 8 || dw > 8 || offset + 1 + lw + dw > |attr| {
      return Success((0, 0)), 0;
    }
    assert s[1..1 + lw] == attr[offset + 1..offset + 1 + lw];
    assert s[1 + lw..1 + lw + dw] == attr[offset + 1 + lw..offset + 1 + lw + dw];
    var length := GatherBytes(attr, offset + 1, lw);
    var delta: int := GatherBytes(attr, offset + 1 + lw, dw);
    if dw > 0 && attr[offset + 1 + lw + dw - 1] >= 128 {
      delta := delta - Pow256(dw);
      if dw == 8 {
        return Failure(Panicked), 1 + lw + dw;
      }
    }
    if prev + delta >= I64_LIMIT || prev + delta < 0 {
      return Failure(CorruptedFilesystem), 1 + lw + dw;
    }
    return Success((prev + delta, length)), 1 + lw + dw;
  }

  lemma OntoNothing(r: Outcome<Extents>)
    ensures Onto([], r) == r
  {
    if r.Success? {
      assert [] + r.value == r.value;
    }
  }

  lemma OntoEnd(done: Extents)
    ensures Onto(done, Success([])) == Success(done)
  {
    assert done + [] == done;
  }

  lemma OntoFails(done: Extents, e: NtfsError)
    ensures Onto(done, Failure(e)) == Failure(e)
  {
  }

  lemma OntoMore(done: Extents, run: (nat, nat), r: Outcome<Extents>)
    ensures Onto(done, Onto([run], r)) == Onto(done + [run], r)
  {
    if r.Success? {
      assert done + ([run] + r.value) == done + [run] + r.value;
    }
  }

  // ----- Encoding

  /** A run to encode: how long it is, how far from the previous one, and in how many bytes each. */
  datatype Run = Run(length: nat, delta: int, lengthWidth: nat, deltaWidth: nat)

  predicate FitsSigned(width: nat, v: int) {
    0 <= 2 * v + Pow256(width) && 2 * v < Pow256(width)
  }

  /** The length fits its width and the delta its two's-complement width; neither has more than 8 bytes. */
  ghost predicate Encodable(r: Run) {
    && 1 <= r.lengthWidth <= 8 && r.length < Pow256(r.lengthWidth)
    && r.deltaWidth <= 8 && FitsSigned(r.deltaWidth, r.delta)
  }

  function EncodeDelta(width: nat, delta: int): (s: seq<Byte>)
    requires FitsSigned(width, delta)
    ensures |s| == width
  {
    LE(width, if delta < 0 then delta + Pow256(width) else delta)
  }

  function EncodeRun(r: Run): (s: seq<Byte>)
    requires Encodable(r)
    ensures |s| == 1 + r.lengthWidth + r.deltaWidth
  {
    [r.lengthWidth + 16 * r.deltaWidth] + LE(r.lengthWidth, r.length) + EncodeDelta(r.deltaWidth, r.delta)
  }

  function EncodeRuns(rs: seq<Run>): seq<Byte>
    requires forall i | 0 <= i < |rs| :: Encodable(rs[i])
  {
    if rs == [] then [] else EncodeRun(rs[0]) + EncodeRuns(rs[1..])
  }

  /** The extents a run list denotes: clusters are prefix sums of the deltas. A prefix sum that goes
      negative or leaves 63 bits makes the list corrupt, and a negative delta in eight bytes stops the
      program. */
  function Meaning(rs: seq<Run>, prev: int): Outcome<Extents> {
    if rs == [] then Success([])
    else if rs[0].deltaWidth == 8 && rs[0].delta < 0 then Failure(Panicked)
    else
      var cluster := prev + rs[0].delta;
      if cluster < 0 || cluster >= 0x8000_0000_0000_0000 then Failure(CorruptedFilesystem)
      else
        var rest :- Meaning(rs[1..], cluster);
        Success([(cluster, rs[0].length)] + rest)
  }

  lemma {:induction false} SignByte(s: seq<Byte>)
    requires s != []
    ensures s[|s| - 1] >= 128 <==> 2 * Value(s) >= Pow256(|s|)
  {
    var t, b := s[..|s| - 1], s[|s| - 1];
    assert s == t + [b];
    ValueAppend(t, b);
    TopByte(Value(t), b, Pow256(|t|));
  }

  lemma TopByte(v: nat, b: Byte, p: nat)
    requires v < p
    ensures b >= 128 <==> 2 * (v + b * p) >= 256 * p
  {
  }

  lemma SignedEncoded(width: nat, delta: int)
    requires FitsSigned(width, delta)
    ensures Signed(EncodeDelta(width, delta)) == delta
  {
    var s := EncodeDelta(width, delta);
    ValueFits(width, if delta < 0 then delta + Pow256(width) else delta);
    if width > 0 {
      SignByte(s);
    }
  }

  /** Decoding inverts encoding, for every run list and every choice of widths, and consumes exactly the
      encoded bytes: they may be followed by anything that does not start with a usable header. */
  lemma {:induction false} DecodeEncoded(rs: seq<Run>, after: seq<Byte>, prev: int)
    requires forall i | 0 <= i < |rs| :: Encodable(rs[i])
    requires !Usable(after)
    ensures DecodeRuns(EncodeRuns(rs) + after, prev) == Meaning(rs, prev)
    decreases |rs|
  {
    hide FirstRun, EncodeRun, Encodable, RunLength, Usable;
    if rs == [] {
      assert EncodeRuns(rs) + after == after;
    } else {
      DecodeFirst(rs[0], EncodeRuns(rs[1..]) + after, prev);
      assert EncodeRuns(rs) + after == EncodeRun(rs[0]) + (EncodeRuns(rs[1..]) + after);
      DecodeEncoded(rs[1..], after, prev + rs[0].delta);
    }
  }

  lemma DecodeFirst(r: Run, rest: seq<Byte>, prev: int)
    requires Encodable(r)
    ensures var s := EncodeRun(r) + rest;
      && Usable(s) && s[RunLength(s)..] == rest
      && FirstRun(s, prev) ==
         if r.deltaWidth == 8 && r.delta < 0 then Failure(Panicked)
         else if prev + r.delta < 0 || prev + r.delta >= I64_LIMIT then Failure(CorruptedFilesystem)
         else Success((prev + r.delta, r.length))
  {
    hide Value, LE, Pow256, Signed, EncodeDelta, FitsSigned;
    var s := EncodeRun(r) + rest;
    var lw, dw := r.lengthWidth, r.deltaWidth;
    assert s[0] == lw + 16 * dw;
    DivModUnique(s[0], 16, dw, lw);
    assert s[1..1 + lw] == LE(lw, r.length) && s[1 + lw..1 + lw + dw] == EncodeDelta(dw, r.delta);
    assert s[1 + lw + dw..] == rest;
    ValueFits(lw, r.length);
    SignedEncoded(dw, r.delta);
  }

  /** A run stops the program exactly when its delta has eight bytes and the sign bit set, whatever the
      width of its length and wherever it stands in the list. */
  lemma {:induction false} WideNegativeFailsIff(s: seq<Byte>, prev: int)
    requires Usable(s)
    ensures FirstRun(s, prev) == Failure(Panicked) <==> s[0] / 16 == 8 && s[RunLength(s) - 1] >= 128
    ensures FirstRun(s, prev) == Failure(Panicked) ==> DecodeRuns(s, prev) == Failure(Panicked)
  {
    hide Value, Pow256;
    var lw, dw := s[0] % 16, s[0] / 16;
    var t := s[1 + lw..1 + lw + dw];
    if dw == 8 {
      assert t[|t| - 1] == s[RunLength(s) - 1];
      SignByte(t);
      SignedNegative(t);
    }
  }

  lemma SignedNegative(t: seq<Byte>)
    requires t != []
    ensures Signed(t) < 0 <==> t[|t| - 1] >= 128
  {
  }
}
