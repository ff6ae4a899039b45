/** What parsing makes of a record, from the bytes of its attributes: whichever there are, and in whatever order. */
module NtfsParse {
  import opened Wrappers
  import opened Bytes
  import opened Text
  import opened NtfsTypes
  import opened NtfsRuns
  import opened NtfsAttributes
  import opened NtfsExtents

  /** What an attribute holds: a file name, an index root, the contents of a file or of a named stream, in the
      record or in extents, or something that the driver steps over. */
  datatype Item =
    | FileName(units: seq<U16>)
    | IndexRoot(value: seq<Byte>)
    | InRecord(stream: seq<U16>, data: seq<Byte>)
    | InClusters(stream: seq<U16>, extents: Extents)
    | Other

  // ----- The bytes of an attribute

  ghost predicate Header(b: seq<Byte>, code: nat, resident: bool) {
    24 <= |b| < 0x1_0000_0000 && b[0..4] == LE(4, code) && b[4..8] == LE(4, |b|) && (b[8] == 0 <==> resident)
  }

  ghost predicate HasName(b: seq<Byte>, units: seq<U16>) {
    |b| >= 24 + 0x44 && b[24 + 0x40] == |units| && 24 + 0x42 + 2 * |units| <= |b|
    && b[24 + 0x42..24 + 0x42 + 2 * |units|] == UnitBytes(units)
  }

  /** The value of a resident attribute lies at the offset in bytes 20 and 21. */
  ghost predicate HasValue(b: seq<Byte>, data: seq<Byte>, at: nat) {
    && |b| >= 24 && at < 0x1_0000 && b[16..20] == LE(4, |data|) && b[20..22] == LE(2, at)
    && at + |data| <= |b| && b[at..at + |data|] == data
  }

  /** The index root is all that lies behind its offset. */
  ghost predicate HasRoot(b: seq<Byte>, value: seq<Byte>, at: nat) {
    |b| >= 24 && at < 0x1_0000 && b[20..22] == LE(2, at) && at < |b| && b[at..] == value
  }

  /** The stream's name has its length in byte 9 and lies at the offset in bytes 10 and 11. */
  ghost predicate HasStream(b: seq<Byte>, units: seq<U16>, at: nat) {
    && |b| >= 24 && b[9] == |units|
    && (units != [] ==> at < 0x1_0000 && b[10..12] == LE(2, at) && at + 2 * |units| <= |b|
                        && b[at..at + 2 * |units|] == UnitBytes(units))
  }

  /** The encoded extents lie at the offset in bytes 32 and 33, behind the header and to the end. */
  ghost predicate HasRuns(b: seq<Byte>, extents: Extents, at: nat, runs: seq<Run>, after: seq<Byte>) {
    && |b| >= 64 && b[8] == 1 && 64 <= at < |b| && at < 0x1_0000 && b[32..34] == LE(2, at)
    && b[40..48] != Zeros(8) && (forall i | 0 <= i < |runs| :: Encodable(runs[i]))
    && b[at..] == EncodeRuns(runs) + after && !Usable(after)
    && Meaning(runs, 0) == Success(extents)
  }

  const STEPPED_OVER: set<nat> := {0x10, 0x20, 0x40, 0x50, 0x60, 0x70, 0xA0, 0xB0, 0xC0, 0xD0, 0xE0, 0x100}

  ghost predicate Carries(b: seq<Byte>, item: Item, clusterSize: nat) {
    match item
    case FileName(units) => Header(b, 0x30, true) && HasName(b, units)
    case IndexRoot(value) => Header(b, 0x90, true) && exists at :: HasRoot(b, value, at)
    case InRecord(stream, data) =>
      Header(b, 0x80, true) && (exists o :: HasStream(b, stream, o)) && exists at :: HasValue(b, data, at)
    case InClusters(stream, extents) =>
      && Header(b, 0x80, false) && (exists o :: HasStream(b, stream, o))
      && (exists at, runs, after :: HasRuns(b, extents, at, runs, after))
      && ClustersIn(extents) * clusterSize < 0x1_0000_0000_0000_0000
    case Other =>
      || (exists code | code in STEPPED_OVER :: exists resident :: Header(b, code, resident))
      || Header(b, 0x30, false) || Header(b, 0x90, false)
  }

  // ----- What it adds to the metadata

  ghost function Show(unit: U16): char {
    if unit < 128 then unit as char else '?'
  }

  /** The first name counts, the last size, the last index root; runs and streams are collected in order. */
  ghost function Added(st: NtfsStat, item: Item, clusterSize: nat): NtfsStat {
    match item
    case FileName(units) => if st.name.Some? then st else st.(name := Some(DecodeUnits(units)))
    case IndexRoot(value) => st.(isDirectory := true, indexRoot := Some(value))
    case InRecord(stream, data) => AddedRun(st, stream, |data|, Resident(data))
    case InClusters(stream, extents) =>
      AddedRun(st, stream, ClustersIn(extents) * clusterSize, NonResident(extents))
    case Other => st
  }

  ghost function AddedRun(st: NtfsStat, stream: seq<U16>, size: nat, run: DataRun): NtfsStat {
    if stream == [] then st.(size := size, dataRuns := st.dataRuns + [run])
    else
      var name := seq(|stream|, i requires 0 <= i < |stream| => Show(stream[i]));
      st.(streams := st.streams + [Stream(name, size, run)])
  }

  ghost function AddedAll(st: NtfsStat, items: seq<Item>, clusterSize: nat): NtfsStat
    decreases |items|
  {
    if items == [] then st else AddedAll(Added(st, items[0], clusterSize), items[1..], clusterSize)
  }

  ghost function Join(bs: seq<seq<Byte>>): seq<Byte> {
    if bs == [] then [] else bs[0] + Join(bs[1..])
  }

  // ----- One attribute

  lemma NextIs(b: seq<Byte>, rest: seq<Byte>, code: nat, resident: bool)
    requires Header(b, code, resident) && IsKnown(code)
    ensures NextAttribute(b + rest) == Attribute(code, b, resident)
  {
    hide LE, Bytes.Value;
    var s := b + rest;
    assert s[0..4] == b[0..4] && s[4..8] == b[4..8] && s[..|b|] == b && s[8] == b[8];
    Widths();
    ValueFits(4, code);
    ValueFits(4, |b|);
  }

  lemma {:induction false} UnitsAre(b: seq<Byte>, units: seq<U16>, at: nat)
    requires at + 2 * |units| <= |b| && b[at..at + 2 * |units|] == UnitBytes(units)
    ensures UnitsIn(b[at..], |units|) == units
  {
    UnitsStored(units, b[at + 2 * |units|..]);
    assert b[at..] == UnitBytes(units) + b[at + 2 * |units|..];
  }

  lemma NameAdded(b: seq<Byte>, units: seq<U16>, st: NtfsStat, clusterSize: nat)
    requires Header(b, 0x30, true) && HasName(b, units)
    ensures Absorb(st, 0x30, b, true, clusterSize) == Success(Added(st, FileName(units), clusterSize))
  {
    hide LE, UnitBytes, DecodeUnits;
    var key := b[24..];
    assert key[0x40] == b[24 + 0x40] && key[0x42..] == b[24 + 0x42..];
    UnitsAre(b, units, 24 + 0x42);
  }

  lemma RootAdded(b: seq<Byte>, value: seq<Byte>, at: nat, st: NtfsStat, clusterSize: nat)
    requires Header(b, 0x90, true) && HasRoot(b, value, at)
    ensures Absorb(st, 0x90, b, true, clusterSize) == Success(Added(st, IndexRoot(value), clusterSize))
  {
    hide LE, Bytes.Value;
    Widths();
    ValueFits(2, at);
  }

  lemma StreamIs(b: seq<Byte>, stream: seq<U16>, at: nat)
    requires HasStream(b, stream, at) && stream != []
    ensures ParseStreamName(b, |stream|) == seq(|stream|, i requires 0 <= i < |stream| => Show(stream[i]))
  {
    hide LE, UnitBytes, Bytes.Value;
    Widths();
    ValueFits(2, at);
    var name := b[at..at + 2 * |stream|];
    UnitsAre(name, stream, 0);
    assert name[0..] == name && name[0..2 * |stream|] == name;
  }

  lemma RunAdded(b: seq<Byte>, stream: seq<U16>, o: nat, st: NtfsStat, size: nat, run: DataRun)
    requires HasStream(b, stream, o)
    ensures AddRun(st, b, size, run) == AddedRun(st, stream, size, run)
  {
    hide LE, UnitBytes, ParseStreamName;
    if stream != [] {
      StreamIs(b, stream, o);
    }
  }

  lemma InRecordAdded(b: seq<Byte>, stream: seq<U16>, o: nat, data: seq<Byte>, at: nat, st: NtfsStat, clusterSize: nat)
    requires Header(b, 0x80, true) && HasStream(b, stream, o) && HasValue(b, data, at)
    ensures Absorb(st, 0x80, b, true, clusterSize) == Success(Added(st, InRecord(stream, data), clusterSize))
  {
    hide LE, Bytes.Value, AddRun, AddedRun, HasStream;
    Widths();
    ValueFits(2, at);
    ValueFits(4, |data|);
    RunAdded(b, stream, o, st, |data|, Resident(data));
  }

  lemma RunsAre(b: seq<Byte>, extents: Extents, at: nat, runs: seq<Run>, after: seq<Byte>)
    requires HasRuns(b, extents, at, runs, after)
    ensures ParseDataRuns(b) == Success(extents)
  {
    hide LE, Bytes.Value, Encodable, DecodeRuns, EncodeRuns, Usable, Meaning;
    Widths();
    ValueFits(2, at);
    DecodeEncoded(runs, after, 0);
    LEOfValue(b[40..48]);
    assert LE(8, 0) == Zeros(8) by {
      NoValue();
    }
  }

  lemma NoValue()
    ensures LE(8, 0) == Zeros(8)
  {
  }

  lemma {:induction false} InClustersAdded(b: seq<Byte>, stream: seq<U16>, o: nat, extents: Extents, at: nat,
                                           runs: seq<Run>, after: seq<Byte>, st: NtfsStat, clusterSize: nat)
    requires Header(b, 0x80, false) && HasStream(b, stream, o) && HasRuns(b, extents, at, runs, after)
    requires ClustersIn(extents) * clusterSize < 0x1_0000_0000_0000_0000
    ensures Absorb(st, 0x80, b, false, clusterSize) == Success(Added(st, InClusters(stream, extents), clusterSize))
  {
    hide LE, Bytes.Value, AddRun, AddedRun, HasStream, ParseDataRuns;
    RunsAre(b, extents, at, runs, after);
    RunsSizeIs(extents, clusterSize);
    RunAdded(b, stream, o, st, ClustersIn(extents) * clusterSize, NonResident(extents));
  }

  /** One attribute: it is stepped over, and adds what it holds. */
  lemma {:induction false} OneAdded(b: seq<Byte>, item: Item, rest: seq<Byte>, st: NtfsStat, clusterSize: nat)
    requires Carries(b, item, clusterSize)
    ensures StatFrom(b + rest, st, clusterSize) == StatFrom(rest, Added(st, item, clusterSize), clusterSize)
  {
    hide Header, HasName, HasRoot, HasValue, HasStream, HasRuns, Absorb, NextAttribute, AddedRun, LE, Bytes.Value;
    assert (b + rest)[|b|..] == rest;
    match item
    case FileName(units) =>
      NextIs(b, rest, 0x30, true);
      NameAdded(b, units, st, clusterSize);
    case IndexRoot(value) =>
      var at :| HasRoot(b, value, at);
      NextIs(b, rest, 0x90, true);
      RootAdded(b, value, at, st, clusterSize);
    case InRecord(stream, data) =>
      var o, at :| HasStream(b, stream, o) && HasValue(b, data, at);
      NextIs(b, rest, 0x80, true);
      InRecordAdded(b, stream, o, data, at, st, clusterSize);
    case InClusters(stream, extents) =>
      var o :| HasStream(b, stream, o);
      var at, runs, after :| HasRuns(b, extents, at, runs, after);
      NextIs(b, rest, 0x80, false);
      InClustersAdded(b, stream, o, extents, at, runs, after, st, clusterSize);
    case Other =>
      OtherAdded(b, rest, st, clusterSize);
  }

  lemma {:induction false} OtherAdded(b: seq<Byte>, rest: seq<Byte>, st: NtfsStat, clusterSize: nat)
    requires Carries(b, Other, clusterSize)
    ensures StatFrom(b + rest, st, clusterSize) == StatFrom(rest, st, clusterSize)
  {
    hide Header, NextAttribute, LE, Bytes.Value;
    assert (b + rest)[|b|..] == rest;
    if Header(b, 0x30, false) {
      NextIs(b, rest, 0x30, false);
    } else if Header(b, 0x90, false) {
      NextIs(b, rest, 0x90, false);
    } else {
      var code :| code in STEPPED_OVER && exists resident :: Header(b, code, resident);
      var resident :| Header(b, code, resident);
      NextIs(b, rest, code, resident);
    }
  }

  /** A list of attributes of any kinds in any order, followed by an end mark or by too little for a header. */
  lemma {:induction false} AllAdded(bs: seq<seq<Byte>>, items: seq<Item>, rest: seq<Byte>, st: NtfsStat,
                                    clusterSize: nat)
    requires |bs| == |items| && forall i | 0 <= i < |bs| :: Carries(bs[i], items[i], clusterSize)
    requires |rest| < 8 || rest[0..4] == [0xFF, 0xFF, 0xFF, 0xFF]
    ensures StatFrom(Join(bs) + rest, st, clusterSize) == Success(AddedAll(st, items, clusterSize))
    decreases |bs|
  {
    hide Carries, Added;
    if bs == [] {
      assert Join(bs) + rest == rest;
      StopsAt(rest, st, clusterSize);
    } else {
      assert Join(bs) + rest == bs[0] + (Join(bs[1..]) + rest);
      OneAdded(bs[0], items[0], Join(bs[1..]) + rest, st, clusterSize);
      AllAdded(bs[1..], items[1..], rest, Added(st, items[0], clusterSize), clusterSize);
    }
  }

  lemma {:induction false} StopsAt(rest: seq<Byte>, st: NtfsStat, clusterSize: nat)
    requires |rest| < 8 || rest[0..4] == [0xFF, 0xFF, 0xFF, 0xFF]
    ensures StatFrom(rest, st, clusterSize) == Success(st)
  {
    EndMarks(rest);
  }

  /** The metadata of a record: what its attributes add to nothing, in order. The first attribute lies at the offset
      in bytes 20 and 21. */
  lemma {:induction false} ParsesAll(record: seq<Byte>, at: nat, bs: seq<seq<Byte>>, items: seq<Item>, rest: seq<Byte>,
                                     clusterSize: nat)
    requires |record| >= 22 && at < 0x1_0000 && record[20..22] == LE(2, at) && at <= |record|
    requires record[at..] == Join(bs) + rest
    requires |bs| == |items| && forall i | 0 <= i < |bs| :: Carries(bs[i], items[i], clusterSize)
    requires |rest| < 8 || rest[0..4] == [0xFF, 0xFF, 0xFF, 0xFF]
    ensures StatOf(record, clusterSize)
         == Success(AddedAll(NtfsStat(false, 0, None, [], None, []), items, clusterSize))
  {
    hide Carries, AddedAll, LE, Bytes.Value, StatFrom;
    Widths();
    ValueFits(2, at);
    AllAdded(bs, items, rest, NtfsStat(false, 0, None, [], None, []), clusterSize);
  }

  // ----- Attributes that are cut off or unknown

  /** An attribute of a type and its own length, but perhaps too short for its header. */
  ghost predicate Short(b: seq<Byte>, code: nat) {
    9 <= |b| < 24 && b[0..4] == LE(4, code) && b[4..8] == LE(4, |b|)
  }

  lemma ShortNext(b: seq<Byte>, code: nat, rest: seq<Byte>)
    requires Short(b, code) && code in {0x30, 0x80, 0x90}
    ensures NextAttribute(b + rest) == Attribute(code, b, b[8] == 0) && (b + rest)[|b|..] == rest
  {
    hide LE, Bytes.Value;
    var s := b + rest;
    assert s[0..4] == b[0..4] && s[4..8] == b[4..8] && s[..|b|] == b && s[8] == b[8];
    Widths();
    ValueFits(4, code);
    ValueFits(4, |b|);
  }

  /** A short attribute in the record stops the program if it is the first name, an index root without an offset, or
      contents without a name length; other short contents in the record are stepped over. */
  lemma {:induction false} ShortIs(b: seq<Byte>, code: nat, rest: seq<Byte>, st: NtfsStat, clusterSize: nat)
    requires Short(b, code) && b[8] == 0
    ensures var r := StatFrom(b + rest, st, clusterSize);
      && (code == 0x30 && st.name.None? ==> r == Failure(Panicked))
      && (code == 0x90 && |b| < 22 ==> r == Failure(Panicked))
      && (code == 0x80 && |b| < 10 ==> r == Failure(Panicked))
      && (code == 0x80 && |b| >= 10 ==> r == StatFrom(rest, st, clusterSize))
  {
    hide LE, Bytes.Value, NextAttribute;
    if code in {0x30, 0x80, 0x90} {
      ShortNext(b, code, rest);
    }
  }

  /** Contents in the record whose value reaches past them are stepped over; so is an index root without a value,
      but for making the record a directory. */
  lemma {:induction false} OverlongIs(b: seq<Byte>, rest: seq<Byte>, n: nat, at: nat, st: NtfsStat, clusterSize: nat)
    requires at < 0x1_0000 && n < 0x1_0000_0000 && |b| >= 24 && b[20..22] == LE(2, at)
    ensures Header(b, 0x80, true) && b[16..20] == LE(4, n) && at + n > |b| ==>
              StatFrom(b + rest, st, clusterSize) == StatFrom(rest, st, clusterSize)
    ensures Header(b, 0x90, true) && at >= |b| ==>
              StatFrom(b + rest, st, clusterSize) == StatFrom(rest, st.(isDirectory := true), clusterSize)
  {
    hide LE, Bytes.Value, NextAttribute;
    Widths();
    ValueFits(2, at);
    ValueFits(4, n);
    assert (b + rest)[|b|..] == rest;
    if Header(b, 0x80, true) {
      NextIs(b, rest, 0x80, true);
    }
    if Header(b, 0x90, true) {
      NextIs(b, rest, 0x90, true);
    }
  }

  /** The name of a stream is empty if its offset is missing or the name reaches past the attribute. */
  lemma StreamNameMissing(b: seq<Byte>, n: nat, at: nat)
    ensures |b| < 12 ==> ParseStreamName(b, n) == ""
    ensures |b| >= 12 && at < 0x1_0000 && b[10..12] == LE(2, at) && at + 2 * n > |b| ==> ParseStreamName(b, n) == ""
    ensures |b| == 12 && b[10..12] == LE(2, 0) && b[0..2] == LE(2, 0x41) ==> ParseStreamName(b, 1) == "A"
  {
    hide LE, Bytes.Value;
    Widths();
    if at < 0x1_0000 {
      ValueFits(2, at);
    }
    ValueFits(2, 0);
    ValueFits(2, 0x41);
    if |b| == 12 {
      assert b[0..2][0..2] == b[0..2] && UnitsIn(b[0..2], 1) == [ReadU16(b[0..2], 0)] + [];
    }
  }

  /** The parser stops, without an error, at what is no attribute: a zero length, one that reaches past the record, or
      an unknown type. */
  lemma {:induction false} StopsSilently(s: seq<Byte>, code: nat, len: nat, st: NtfsStat, clusterSize: nat)
    requires |s| > 8 && s[0..4] == LE(4, code) && s[4..8] == LE(4, len)
    requires code < 0x1_0000_0000 && len < 0x1_0000_0000
    ensures len == 0 || len > |s| || code % 0x10 != 0 || code == 0 || 0xE0 < code < 0x100 || code > 0x100 ==>
              StatFrom(s, st, clusterSize) == Success(st)
  {
    hide LE, Bytes.Value;
    Widths();
    ValueFits(4, code);
    ValueFits(4, len);
  }

  // ----- Searching for one attribute

  /** An attribute that the search steps over: its type and its length, whatever else. */
  ghost predicate Sized(b: seq<Byte>, code: nat) {
    8 <= |b| < 0x1_0000_0000 && code < 0xFFFF_FFFF && b[0..4] == LE(4, code) && b[4..8] == LE(4, |b|)
  }

  lemma SizedReads(b: seq<Byte>, code: nat, rest: seq<Byte>)
    requires Sized(b, code)
    ensures ReadU32(b + rest, 0) == code && ReadU32(b + rest, 4) == |b| && (b + rest)[|b|..] == rest
  {
    hide LE, Bytes.Value;
    var s := b + rest;
    assert s[0..4] == b[0..4] && s[4..8] == b[4..8];
    Widths();
    ValueFits(4, code);
    ValueFits(4, |b|);
  }

  /** The search finds the first attribute of the type, at the length of those in front of it; without one it
      fails at the end mark. */
  lemma {:induction false} FindsFirst(bs: seq<seq<Byte>>, codes: seq<nat>, rest: seq<Byte>, code: nat, k: nat)
    requires |bs| == |codes| && forall i | 0 <= i < |bs| :: Sized(bs[i], codes[i])
    requires k <= |bs| && forall i | 0 <= i < k :: codes[i] != code
    requires |rest| < 8 || rest[0..4] == [0xFF, 0xFF, 0xFF, 0xFF]
    ensures k < |bs| && codes[k] == code ==> FindFrom(Join(bs) + rest, code) == Success(|Join(bs[..k])|)
    ensures k == |bs| ==> FindFrom(Join(bs) + rest, code) == Failure(InvalidAttribute)
    decreases |bs|
  {
    hide Sized, ReadU32;
    if bs == [] {
      assert Join(bs) + rest == rest;
      EndMarks(rest);
    } else {
      assert Join(bs) + rest == bs[0] + (Join(bs[1..]) + rest);
      SizedReads(bs[0], codes[0], Join(bs[1..]) + rest);
      SizedLength(bs[0], codes[0]);
      if k > 0 {
        FindsFirst(bs[1..], codes[1..], rest, code, k - 1);
        assert bs[..k][1..] == bs[1..][..k - 1];
      } else {
        assert Join(bs[..0]) == [];
      }
    }
  }

  /** The search fails at a zero length and at one that reaches past the record. */
  lemma {:induction false} FindStops(s: seq<Byte>, code: nat, other: nat, len: nat)
    requires |s| >= 8 && s[0..4] == LE(4, other) && s[4..8] == LE(4, len) && other != code
    requires other < 0x1_0000_0000 && len < 0x1_0000_0000 && (len == 0 || len > |s|)
    ensures FindFrom(s, code) == Failure(InvalidAttribute)
  {
    hide LE, Bytes.Value;
    Widths();
    ValueFits(4, other);
    ValueFits(4, len);
  }

  lemma SizedLength(b: seq<Byte>, code: nat)
    requires Sized(b, code)
    ensures |b| >= 8 && code != END_MARK
  {
  }

  lemma EndMarks(rest: seq<Byte>)
    requires |rest| < 8 || rest[0..4] == [0xFF, 0xFF, 0xFF, 0xFF]
    ensures |rest| < 8 || ReadU32(rest, 0) == END_MARK
  {
    if |rest| >= 8 {
      U32Is(rest, 0);
      var mark := rest[0..4];
      assert rest[0] == mark[0] && rest[1] == mark[1] && rest[2] == mark[2] && rest[3] == mark[3];
    }
  }
}
