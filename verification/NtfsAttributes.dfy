/** Attributes of a file record: walking them, decoding them into metadata, updating file contents. */
module NtfsAttributes {
  import opened Wrappers
  import opened Bytes
  import opened NtfsTypes
  import opened NtfsRuns

  const END_MARK: nat := 0xFFFF_FFFF
  const FILE_NAME: nat := 0x30
  const DATA: nat := 0x80
  const INDEX_ROOT: nat := 0x90
  const INDEX_ALLOCATION: nat := 0xA0

  /** The attribute types the driver knows; it stops at any other. */
  predicate IsKnown(code: nat) {
    (code % 0x10 == 0 && 0x10 <= code <= 0xE0) || code == 0x100
  }

  datatype Step = Stop | Broken | Attribute(code: nat, bytes: seq<Byte>, resident: bool)

  /** The attribute at the start of `s`, the rest of a record. Looking at the residence flag of a
      header that ends with the record is a failed index. */
  function NextAttribute(s: seq<Byte>): (r: Step)
    ensures r.Attribute? ==> 0 < |r.bytes| <= |s| && r.bytes == s[..|r.bytes|] && |s| > 8
  {
    if |s| < 8 || ReadU32(s, 0) == END_MARK || ReadU32(s, 4) == 0 || ReadU32(s, 4) > |s| then Stop
    else if |s| == 8 then Broken
    else if !IsKnown(ReadU32(s, 0)) then Stop
    else Attribute(ReadU32(s, 0), s[..ReadU32(s, 4)], s[8] == 0)
  }

  /** Where the attributes of a record start. */
  function FirstOffset(record: seq<Byte>): nat
    requires |record| >= 22
  {
    ReadU16(record, 20)
  }

  function From(record: seq<Byte>, off: nat): seq<Byte> {
    if off <= |record| then record[off..] else []
  }

  // ----- Metadata

  /** The name and parent in a file-name key. */
  function ParseName(key: seq<Byte>): Option<(string, nat)> {
    if |key| < 0x44 then None
    else
      var n: nat := key[0x40];
      if |key| - 0x42 < 2 * n then None
      else Some((DecodeUnits(UnitsIn(key[0x42..], n)), ReadU64(key, 0)))
  }

  /** A stream name: no terminator, unknown characters as question marks. */
  function ShowUnits(units: seq<U16>): string {
    seq(|units|, i requires 0 <= i < |units| => if units[i] < 128 then units[i] as char else '?')
  }

  function ParseStreamName(attr: seq<Byte>, n: nat): string {
    if |attr| < 12 then ""
    else
      var at := ReadU16(attr, 10);
      if at + 2 * n > |attr| then "" else ShowUnits(UnitsIn(attr[at..at + 2 * n], n))
  }

  function RunsSize(runs: Extents, clusterSize: nat): nat {
    if runs == [] then 0 else runs[0].1 * clusterSize + RunsSize(runs[1..], clusterSize)
  }

  /** The value of a resident attribute, if its header is whole and the value lies inside. */
  function ResidentValue(attr: seq<Byte>): Option<seq<Byte>> {
    if |attr| < 24 then None
    else
      var length: nat, at: nat := ReadU32(attr, 16), ReadU16(attr, 20);
      if at + length > |attr| then None else Some(attr[at..at + length])
  }

  function AbsorbName(st: NtfsStat, attr: seq<Byte>): Outcome<NtfsStat> {
    if |attr| < 24 then Failure(Panicked)
    else
      match ParseName(attr[24..])
      case None => Success(st)
      case Some((name, _)) => Success(st.(name := Some(name)))
  }

  function AbsorbIndexRoot(st: NtfsStat, attr: seq<Byte>): Outcome<NtfsStat> {
    if |attr| < 22 then Failure(Panicked)
    else
      var at := ReadU16(attr, 20);
      var dir := st.(isDirectory := true);
      Success(if |attr| > at then dir.(indexRoot := Some(attr[at..])) else dir)
  }

  function AddRun(st: NtfsStat, attr: seq<Byte>, size: nat, data: DataRun): NtfsStat
    requires |attr| >= 10
  {
    if attr[9] == 0 then st.(size := size, dataRuns := st.dataRuns + [data])
    else st.(streams := st.streams + [Stream(ParseStreamName(attr, attr[9]), size, data)])
  }

  function AbsorbData(st: NtfsStat, attr: seq<Byte>, resident: bool, clusterSize: nat): Outcome<NtfsStat> {
    if |attr| < 10 then Failure(Panicked)
    else if resident then
      match ResidentValue(attr)
      case None => Success(st)
      case Some(data) => Success(AddRun(st, attr, |data|, Resident(data)))
    else
      var runs :- ParseDataRuns(attr);
      if RunsSize(runs, clusterSize) >= 0x1_0000_0000_0000_0000 then Failure(Panicked)
      else Success(AddRun(st, attr, RunsSize(runs, clusterSize), NonResident(runs)))
  }

  /** What one attribute adds to the metadata. */
  function Absorb(st: NtfsStat, code: nat, attr: seq<Byte>, resident: bool, clusterSize: nat): Outcome<NtfsStat> {
    if code == FILE_NAME && resident && st.name.None? then AbsorbName(st, attr)
    else if code == INDEX_ROOT && resident then AbsorbIndexRoot(st, attr)
    else if code == DATA then AbsorbData(st, attr, resident, clusterSize)
    else Success(st)
  }

  const NO_STAT := NtfsStat(false, 0, None, [], None, [])

  function StatFrom(s: seq<Byte>, st: NtfsStat, clusterSize: nat): Outcome<NtfsStat>
    decreases |s|
  {
    match NextAttribute(s)
    case Stop => Success(st)
    case Broken => Failure(Panicked)
    case Attribute(code, attr, resident) =>
      var st' :- Absorb(st, code, attr, resident, clusterSize);
      StatFrom(s[|attr|..], st', clusterSize)
  }

  /** All the metadata of a record. */
  function StatOf(record: seq<Byte>, clusterSize: nat): Outcome<NtfsStat> {
    if |record| < 22 then Failure(Panicked)
    else StatFrom(From(record, FirstOffset(record)), NO_STAT, clusterSize)
  }

  method ParseStat(record: seq<Byte>, clusterSize: nat) returns (r: Outcome<NtfsStat>)
    ensures r == StatOf(record, clusterSize)
  {
    hide NextAttribute, Absorb, FirstOffset;
    if |record| < 22 {
      return Failure(Panicked);
    }
    var st, offset := NO_STAT, FirstOffset(record);
    var step := NextAttribute(From(record, offset));
    NextInside(From(record, offset));
    while step.Attribute?
      invariant offset <= |record| || step.Stop?
      invariant step == NextAttribute(From(record, offset))
      invariant StatOf(record, clusterSize) == StatFrom(From(record, offset), st, clusterSize)
      decreases |record| - offset
    {
      NextInside(From(record, offset));
      var absorbed := Absorb(st, step.code, step.bytes, step.resident, clusterSize);
      if absorbed.Failure? {
        return absorbed;
      }
      assert From(record, offset)[|step.bytes|..] == From(record, offset + |step.bytes|);
      st, offset := absorbed.value, offset + |step.bytes|;
      step := NextAttribute(From(record, offset));
    }
    return if step.Broken? then Failure(Panicked) else Success(st);
  }

  lemma NextInside(s: seq<Byte>)
    ensures var r := NextAttribute(s); r.Attribute? ==> 0 < |r.bytes| <= |s|
    ensures |s| == 0 ==> NextAttribute(s).Stop?
  {
  }

  // ----- Finding one attribute

  /** The offset in `s` of the first attribute of a type. Unknown types are stepped over. */
  function FindFrom(s: seq<Byte>, code: nat): (r: Outcome<nat>)
    ensures r.Success? ==> r.value + 8 <= |s|
    decreases |s|
  {
    if |s| < 8 || ReadU32(s, 0) == END_MARK then Failure(InvalidAttribute)
    else if ReadU32(s, 0) == code then Success(0)
    else
      var len := ReadU32(s, 4);
      if len == 0 || len > |s| then Failure(InvalidAttribute)
      else
        var at :- FindFrom(s[len..], code);
        Success(len + at)
  }

  function FindAttribute(record: seq<Byte>, code: nat): (r: Outcome<nat>)
    ensures r.Success? ==> |record| >= 22 && r.value + 8 <= |record|
  {
    if |record| < 22 then Failure(InvalidMftRecord)
    else
      var at :- FindFrom(From(record, FirstOffset(record)), code);
      Success(FirstOffset(record) + at)
  }

  /** How the walk ends at an offset of the record, if it does not go on there. */
  function Verdict(record: seq<Byte>, offset: nat, code: nat): (r: Option<Outcome<nat>>)
    ensures r.None? ==> offset + 8 <= |record| && 0 < ReadU32(record, offset + 4) <= |record| - offset
  {
    if offset + 8 > |record| || ReadU32(record, offset) == END_MARK then Some(Failure(InvalidAttribute))
    else if ReadU32(record, offset) == code then Some(Success(offset))
    else if ReadU32(record, offset + 4) == 0 || offset + ReadU32(record, offset + 4) > |record|
         then Some(Failure(InvalidAttribute))
    else None
  }

  function FindAt(record: seq<Byte>, offset: nat, code: nat): Outcome<nat>
    decreases |record| - offset
  {
    match Verdict(record, offset, code)
    case Some(r) => r
    case None => FindAt(record, offset + ReadU32(record, offset + 4), code)
  }

  method FindAttributeOffset(record: seq<Byte>, code: nat) returns (r: Outcome<nat>)
    ensures r == FindAttribute(record, code)
  {
    hide ReadU32, FirstOffset, Verdict, FindAt, FindFrom;
    if |record| < 22 {
      return Failure(InvalidMftRecord);
    }
    var offset := FirstOffset(record);
    var verdict := Verdict(record, offset, code);
    while verdict.None?
      invariant verdict == Verdict(record, offset, code)
      invariant FindAt(record, FirstOffset(record), code) == FindAt(record, offset, code)
      decreases |record| - offset
    {
      VerdictInside(record, offset, code);
      FindAtUnfolds(record, offset, code);
      offset := offset + ReadU32(record, offset + 4);
      verdict := Verdict(record, offset, code);
    }
    r := verdict.value;
    FindAtUnfolds(record, offset, code);
    FindAtIsFindFrom(record, FirstOffset(record), code);
  }

  lemma FindAtUnfolds(record: seq<Byte>, offset: nat, code: nat)
    ensures FindAt(record, offset, code) ==
            if Verdict(record, offset, code).Some? then Verdict(record, offset, code).value
            else FindAt(record, offset + ReadU32(record, offset + 4), code)
  {
    hide ReadU32, Verdict;
  }

  lemma VerdictInside(record: seq<Byte>, offset: nat, code: nat)
    requires Verdict(record, offset, code).None?
    ensures offset + 8 <= |record| && 0 < ReadU32(record, offset + 4) <= |record| - offset
  {
  }

  ghost function Offset(base: nat, r: Outcome<nat>): Outcome<nat> {
    if r.Success? then Success(base + r.value) else r
  }

  lemma FromReads(record: seq<Byte>, offset: nat)
    requires offset + 8 <= |record|
    ensures var s := From(record, offset);
      |s| >= 8 && ReadU32(s, 0) == ReadU32(record, offset) && ReadU32(s, 4) == ReadU32(record, offset + 4)
  {
    hide Value;
    var s := From(record, offset);
    assert s[0..4] == record[offset..offset + 4] && s[4..8] == record[offset + 4..offset + 8];
  }

  lemma {:induction false} FindAtIsFindFrom(record: seq<Byte>, offset: nat, code: nat)
    ensures FindAt(record, offset, code) == Offset(offset, FindFrom(From(record, offset), code))
    decreases |record| - offset
  {
    hide Value, ReadU32;
    if offset + 8 <= |record| {
      var s, length := From(record, offset), ReadU32(record, offset + 4);
      FromReads(record, offset);
      if 0 < length <= |s| {
        assert s[length..] == From(record, offset + length);
        FindAtIsFindFrom(record, offset + length, code);
      }
    }
  }

  // ----- File contents

  /** Overwrites the value of the attribute at `at`; only the length is checked against the header. */
  function UpdateResident(record: seq<Byte>, at: nat, data: seq<Byte>): (r: Outcome<seq<Byte>>)
    ensures r.Success? ==> |r.value| == |record|
  {
    if at + 24 > |record| then Failure(InvalidAttribute)
    else
      var start := at + ReadU16(record, at + 20);
      if |data| != ReadU32(record, at + 16) || start + |data| > |record| then Failure(InvalidAttribute)
      else Success(Splice(record, start, data))
  }

  method UpdateResidentData(record: array<Byte>, at: nat, data: seq<Byte>) returns (r: Outcome<()>)
    modifies record
    ensures var s := UpdateResident(old(record[..]), at, data);
            if s.Success? then r == Success(()) && record[..] == s.value
            else r == Failure(s.error) && record[..] == old(record[..])
  {
    if at + 24 > record.Length {
      return Failure(InvalidAttribute);
    }
    var valueOffset, valueLength := ReadU16(record[..], at + 20), ReadU32(record[..], at + 16);
    var start := at + valueOffset;
    var end := start + valueLength;
    if |data| != valueLength || end > record.Length {
      return Failure(InvalidAttribute);
    }
    CopyInto(record, start, data);
    return Success(());
  }
}
