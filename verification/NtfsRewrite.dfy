/** Overwriting a resident file in place: when a later read returns the new contents, and when not. */
module NtfsRewrite {
  import opened Wrappers
  import opened Bytes
  import opened NtfsTypes
  import opened NtfsRuns
  import opened NtfsFixups
  import opened NtfsAttributes
  import opened NtfsDirectory
  import opened NtfsBuild
  import opened NtfsVolume
  import opened NtfsCreate
  import opened NtfsExtents

  // ----- Attribute lists whose first data attribute is resident

  /** A resident attribute with its value after the header and inside. */
  ghost predicate PlainValue(a: seq<Byte>, resident: bool) {
    && resident && |a| >= 24
    && 24 <= ReadU16(a, 20) && ReadU16(a, 20) + ReadU32(a, 16) <= |a|
  }

  /** The driver can walk to a data attribute, and the first one is resident with a plain value. */
  ghost predicate HasData(s: seq<Byte>)
    decreases |s|
  {
    match NextAttribute(s)
    case Attribute(code, a, resident) =>
      if code == DATA then PlainValue(a, resident) else HasData(s[|a|..])
    case _ => false
  }

  /** Where the first data attribute and its value lie. */
  ghost function DataSpan(s: seq<Byte>): (r: Span)
    requires HasData(s)
    ensures r.attr + 24 <= r.lo <= r.hi <= |s|
    decreases |s|
  {
    var n := NextAttribute(s);
    if n.code == DATA then Span(0, ReadU16(n.bytes, 20), ReadU16(n.bytes, 20) + ReadU32(n.bytes, 16))
    else
      var r := DataSpan(s[|n.bytes|..]);
      Span(|n.bytes| + r.attr, |n.bytes| + r.lo, |n.bytes| + r.hi)
  }

  ghost function DataValue(s: seq<Byte>): seq<Byte>
    requires HasData(s)
  {
    s[DataSpan(s).lo..DataSpan(s).hi]
  }

  /** Whether the first data attribute is the unnamed one, the file's contents. */
  ghost predicate Unnamed(s: seq<Byte>)
    requires HasData(s)
  {
    s[DataSpan(s).attr + 9] == 0
  }

  // ----- Runs and streams are only ever added at the end

  /** The metadata with runs and streams found earlier in front. */
  ghost function Behind(st: NtfsStat, runs: seq<DataRun>, streams: seq<Stream>): NtfsStat {
    st.(dataRuns := runs + st.dataRuns, streams := streams + st.streams)
  }

  ghost function AllBehind(r: Outcome<NtfsStat>, runs: seq<DataRun>, streams: seq<Stream>): Outcome<NtfsStat> {
    if r.Success? then Success(Behind(r.value, runs, streams)) else r
  }

  lemma AbsorbAppends(st: NtfsStat, code: nat, a: seq<Byte>, resident: bool, cs: nat, runs: seq<DataRun>,
                      streams: seq<Stream>)
    ensures Absorb(Behind(st, runs, streams), code, a, resident, cs)
         == AllBehind(Absorb(st, code, a, resident, cs), runs, streams)
  {
    hide ParseDataRuns, ParseStreamName, ResidentValue, RunsSize, ParseName;
    if code == DATA && |a| >= 10 {
      RunAppends(st, a, runs, streams);
    }
  }

  lemma RunAppends(st: NtfsStat, a: seq<Byte>, runs: seq<DataRun>, streams: seq<Stream>)
    requires |a| >= 10
    ensures forall size: nat, data: DataRun ::
      AddRun(Behind(st, runs, streams), a, size, data) == Behind(AddRun(st, a, size, data), runs, streams)
  {
    forall size: nat, data: DataRun
      ensures AddRun(Behind(st, runs, streams), a, size, data) == Behind(AddRun(st, a, size, data), runs, streams)
    {
      assert runs + st.dataRuns + [data] == runs + (st.dataRuns + [data]);
      var named := Stream(ParseStreamName(a, a[9]), size, data);
      assert streams + st.streams + [named] == streams + (st.streams + [named]);
    }
  }

  lemma {:induction false} StatAppends(s: seq<Byte>, st: NtfsStat, cs: nat, runs: seq<DataRun>, streams: seq<Stream>)
    ensures StatFrom(s, Behind(st, runs, streams), cs) == AllBehind(StatFrom(s, st, cs), runs, streams)
    decreases |s|
  {
    hide NextAttribute, Absorb;
    NextInside(s);
    var n := NextAttribute(s);
    if n.Attribute? {
      AbsorbAppends(st, n.code, n.bytes, n.resident, cs, runs, streams);
      var absorbed := Absorb(st, n.code, n.bytes, n.resident, cs);
      if absorbed.Success? {
        StatAppends(s[|n.bytes|..], absorbed.value, cs, runs, streams);
      }
    }
  }

  /** The metadata `r` is `q` with `x` for `was` in the first run. */
  ghost predicate NewFirstRun(q: Outcome<NtfsStat>, r: Outcome<NtfsStat>, was: seq<Byte>, x: seq<Byte>) {
    if q.Success? then
      && q.value.dataRuns != [] && q.value.dataRuns[0] == Resident(was)
      && r == Success(q.value.(dataRuns := [Resident(x)] + q.value.dataRuns[1..]))
    else r == q
  }

  /** The metadata `r` is `q` with a first stream that holds `x` instead of `was`. */
  ghost predicate NewFirstStream(q: Outcome<NtfsStat>, r: Outcome<NtfsStat>, was: seq<Byte>, x: seq<Byte>) {
    if q.Success? then
      && q.value.streams != [] && q.value.streams[0].data == Resident(was)
      && r.Success? && r.value.streams != [] && r.value.streams[0].data == Resident(x)
      && r.value == q.value.(streams := [r.value.streams[0]] + q.value.streams[1..])
    else r == q
  }

  // ----- What the readers make of the edited list

  lemma AbsorbPlain(st: NtfsStat, a: seq<Byte>, resident: bool, cs: nat)
    requires PlainValue(a, resident)
    ensures var x := a[ReadU16(a, 20)..ReadU16(a, 20) + ReadU32(a, 16)];
            Absorb(st, DATA, a, resident, cs) == Success(AddRun(st, a, |x|, Resident(x)))
  {
  }

  /** The header of an attribute is not touched by a new value. */
  lemma HeaderKept(a: seq<Byte>, resident: bool, x: seq<Byte>)
    requires PlainValue(a, resident) && |x| == ReadU32(a, 16)
    ensures var b := Splice(a, ReadU16(a, 20), x);
      && PlainValue(b, resident) && ReadU16(b, 20) == ReadU16(a, 20) && ReadU32(b, 16) == ReadU32(a, 16)
      && b[9] == a[9] && b[ReadU16(b, 20)..ReadU16(b, 20) + ReadU32(b, 16)] == x
  {
    hide Value, Splice;
    var at: nat := ReadU16(a, 20);
    SpliceOutside(a, at, x, 20, 22);
    SpliceOutside(a, at, x, 16, 20);
    SpliceOutside(a, at, x, 9, 10);
    SpliceInside(a, at, x);
    assert Splice(a, at, x)[9] == Splice(a, at, x)[9..10][0] && a[9] == a[9..10][0];
  }

  lemma NextEditedPart(s: seq<Byte>, at: nat, x: seq<Byte>)
    requires NextAttribute(s).Attribute? && 24 <= at && at + |x| <= |NextAttribute(s).bytes|
    ensures var n := NextAttribute(s);
      && NextAttribute(Splice(s, at, x)) == n.(bytes := Splice(n.bytes, at, x))
      && Splice(s, at, x)[|n.bytes|..] == s[|n.bytes|..]
  {
    hide Value;
    var n, t := NextAttribute(s), Splice(s, at, x);
    SpliceOutside(s, at, x, 0, 4);
    SpliceOutside(s, at, x, 4, 8);
    assert t[8] == s[8];
    assert t[..|n.bytes|] == Splice(n.bytes, at, x);
  }

  /** Reading after the first data attribute was given a new value of the same length: if it is unnamed, the
      first data run is the new value; if it is a named stream, the first stream holds it. Nothing else changes. */
  lemma {:induction false} StatRewritten(s: seq<Byte>, x: seq<Byte>, st: NtfsStat, cs: nat)
    requires HasData(s) && |x| == |DataValue(s)| && st.dataRuns == [] && st.streams == []
    ensures var (q, r) := (StatFrom(s, st, cs), StatFrom(Splice(s, DataSpan(s).lo, x), st, cs));
      if Unnamed(s) then NewFirstRun(q, r, DataValue(s), x) else NewFirstStream(q, r, DataValue(s), x)
    decreases |s|
  {
    hide NextAttribute, Absorb, Splice, Value, NewFirstRun, NewFirstStream;
    NextInside(s);
    var n := NextAttribute(s);
    if n.code == DATA {
      DataAttributeRewritten(s, x, st, cs);
    } else {
      NextBefore(s, DataSpan(s).lo, x);
      RestData(s);
      AbsorbKeepsRuns(st, n.code, n.bytes, n.resident, cs);
      var absorbed := Absorb(st, n.code, n.bytes, n.resident, cs);
      if absorbed.Success? {
        StatRewritten(s[|n.bytes|..], x, absorbed.value, cs);
      } else {
        FailsBoth(absorbed, DataValue(s), x);
      }
    }
  }

  lemma FailsBoth(q: Outcome<NtfsStat>, was: seq<Byte>, x: seq<Byte>)
    requires q.Failure?
    ensures NewFirstRun(q, q, was, x) && NewFirstStream(q, q, was, x)
  {
  }

  lemma AbsorbKeepsRuns(st: NtfsStat, code: nat, a: seq<Byte>, resident: bool, cs: nat)
    requires code != DATA
    ensures var r := Absorb(st, code, a, resident, cs);
      r.Success? ==> r.value.dataRuns == st.dataRuns && r.value.streams == st.streams
  {
  }

  lemma {:induction false} RestSpan(s: seq<Byte>)
    requires HasData(s) && NextAttribute(s).code != DATA
    ensures |NextAttribute(s).bytes| <= |s|
    ensures var n := |NextAttribute(s).bytes|;
      && HasData(s[n..])
      && var r := DataSpan(s[n..]); DataSpan(s) == Span(n + r.attr, n + r.lo, n + r.hi)
  {
  }

  lemma {:induction false} RestData(s: seq<Byte>)
    requires HasData(s) && NextAttribute(s).Attribute? && NextAttribute(s).code != DATA
    ensures |NextAttribute(s).bytes| <= |s|
    ensures var t := s[|NextAttribute(s).bytes|..];
      HasData(t) && DataValue(s) == DataValue(t) && Unnamed(s) == Unnamed(t)
  {
    hide NextAttribute, HasData, DataSpan;
    RestSpan(s);
    var n := |NextAttribute(s).bytes|;
    var r := DataSpan(s[n..]);
    DataInside(s[n..]);
    assert s[n..] == s[n..|s|];
    SliceOfSlice(s, n, |s|, r.lo, r.hi);
    assert s[n..][r.attr + 9] == s[n + r.attr + 9];
  }

  lemma {:induction false} FirstData(s: seq<Byte>)
    requires HasData(s) && NextAttribute(s).code == DATA
    ensures var a := NextAttribute(s).bytes;
      && PlainValue(a, NextAttribute(s).resident) && DataValue(s) == a[ReadU16(a, 20)..ReadU16(a, 20) + ReadU32(a, 16)]
      && (Unnamed(s) <==> a[9] == 0) && DataSpan(s).lo == ReadU16(a, 20)
  {
    hide Value;
    var a := NextAttribute(s).bytes;
    SliceOfSlice(s, 0, |a|, ReadU16(a, 20), ReadU16(a, 20) + ReadU32(a, 16));
  }

  lemma {:induction false} DataAttributeRewritten(s: seq<Byte>, x: seq<Byte>, st: NtfsStat, cs: nat)
    requires HasData(s) && NextAttribute(s).code == DATA && |x| == |DataValue(s)|
    requires st.dataRuns == [] && st.streams == []
    ensures var (q, r) := (StatFrom(s, st, cs), StatFrom(Splice(s, DataSpan(s).lo, x), st, cs));
      if Unnamed(s) then NewFirstRun(q, r, DataValue(s), x) else NewFirstStream(q, r, DataValue(s), x)
  {
    hide NextAttribute, Absorb, Splice, Value, PlainValue, NewFirstRun, NewFirstStream;
    NextInside(s);
    FirstData(s);
    var n := NextAttribute(s);
    PlainFacts(n.bytes, n.resident);
    var at: nat := DataSpan(s).lo;
    var b, rest, was := Splice(n.bytes, at, x), s[|n.bytes|..], DataValue(s);
    HeaderKept(n.bytes, n.resident, x);
    NextEditedPart(s, at, x);
    AbsorbPlain(st, n.bytes, n.resident, cs);
    AbsorbPlain(st, b, n.resident, cs);
    if n.bytes[9] == 0 {
      FirstRun(st, n.bytes, was);
      FirstRun(st, b, x);
      var sized := st.(size := |x|);
      StatAppends(rest, sized, cs, [Resident(was)], []);
      StatAppends(rest, sized, cs, [Resident(x)], []);
      RunsDiffer(StatFrom(rest, sized, cs), was, x);
    } else {
      FirstStream(st, n.bytes, was);
      FirstStream(st, b, x);
      var a0, b0 := ParseStreamName(n.bytes, n.bytes[9]), ParseStreamName(b, b[9]);
      StatAppends(rest, st, cs, [], [Stream(a0, |x|, Resident(was))]);
      StatAppends(rest, st, cs, [], [Stream(b0, |x|, Resident(x))]);
      StreamsDiffer(StatFrom(rest, st, cs), a0, b0, was, x);
    }
  }

  lemma FirstRun(st: NtfsStat, a: seq<Byte>, x: seq<Byte>)
    requires |a| >= 10 && a[9] == 0 && st.dataRuns == [] && st.streams == []
    ensures AddRun(st, a, |x|, Resident(x)) == Behind(st.(size := |x|), [Resident(x)], [])
  {
  }

  lemma FirstStream(st: NtfsStat, a: seq<Byte>, x: seq<Byte>)
    requires |a| >= 10 && a[9] != 0 && st.dataRuns == [] && st.streams == []
    ensures AddRun(st, a, |x|, Resident(x)) == Behind(st, [], [Stream(ParseStreamName(a, a[9]), |x|, Resident(x))])
  {
  }

  lemma RunsDiffer(r: Outcome<NtfsStat>, was: seq<Byte>, x: seq<Byte>)
    ensures NewFirstRun(AllBehind(r, [Resident(was)], []), AllBehind(r, [Resident(x)], []), was, x)
  {
    if r.Success? {
      assert ([Resident(was)] + r.value.dataRuns)[1..] == r.value.dataRuns;
    }
  }

  lemma StreamsDiffer(r: Outcome<NtfsStat>, a: string, b: string, was: seq<Byte>, x: seq<Byte>)
    ensures var (y, z) := (Stream(a, |x|, Resident(was)), Stream(b, |x|, Resident(x)));
      NewFirstStream(AllBehind(r, [], [y]), AllBehind(r, [], [z]), was, x)
  {
    if r.Success? {
      assert ([Stream(a, |x|, Resident(was))] + r.value.streams)[1..] == r.value.streams;
    }
  }

  lemma PlainFacts(a: seq<Byte>, resident: bool)
    requires PlainValue(a, resident)
    ensures |a| >= 24 && 24 <= ReadU16(a, 20) && ReadU16(a, 20) + ReadU32(a, 16) <= |a|
  {
  }

  // ----- What the writer does

  /** The writer's own walk finds the same first data attribute. */
  lemma {:induction false} FindsData(s: seq<Byte>)
    requires HasData(s)
    ensures FindFrom(s, DATA) == Success(DataSpan(s).attr)
    decreases |s|
  {
    hide Value, PlainValue;
    var n := NextAttribute(s);
    if n.code != DATA {
      FindsData(s[|n.bytes|..]);
    }
  }

  /** The header fields it reads there say where the value lies. */
  lemma {:induction false} DataHeader(s: seq<Byte>)
    requires HasData(s)
    ensures var p := DataSpan(s);
      && p.attr + 24 <= |s|
      && p.attr + ReadU16(s, p.attr + 20) == p.lo && ReadU32(s, p.attr + 16) == p.hi - p.lo
    decreases |s|
  {
    hide Value, ReadU16, ReadU32, NextAttribute;
    NextPrefix(s);
    var n := NextAttribute(s);
    if n.code == DATA {
      PlainFacts(n.bytes, n.resident);
      ReadU16At(s, 0, |n.bytes|, 20);
      ReadU32At(s, 0, |n.bytes|, 16);
    } else {
      RestSpan(s);
      DataHeader(s[|n.bytes|..]);
      HeaderFurther(s, |n.bytes|, DataSpan(s[|n.bytes|..]).attr);
    }
  }

  lemma HeaderFurther(s: seq<Byte>, lo: nat, i: nat)
    requires lo <= |s| && i + 24 <= |s| - lo
    ensures ReadU16(s[lo..], i + 20) == ReadU16(s, lo + i + 20)
    ensures ReadU32(s[lo..], i + 16) == ReadU32(s, lo + i + 16)
  {
    hide Value;
    assert s[lo..] == s[lo..|s|];
    ReadU16At(s, lo, |s|, i + 20);
    ReadU32At(s, lo, |s|, i + 16);
  }

  lemma ReadU32At(s: seq<Byte>, lo: nat, hi: nat, i: nat)
    requires lo <= hi <= |s| && i + 4 <= hi - lo
    ensures ReadU32(s[lo..hi], i) == ReadU32(s, lo + i)
  {
    SliceOfSlice(s, lo, hi, i, i + 4);
  }

  /** A file's record on disk, with its fixups clear of the attributes. */
  ghost predicate GoodFileRecord(v: Volume, n: nat) {
    && ReadRecord(v, n).Success?
    && var record := ReadRecord(v, n).value;
       && |record| >= 28 && 28 <= FirstOffset(record) <= |record| && record[0..4] == FILE_SIGNATURE
       && FixupsSafe(record, v.sector) && (Unprotected(record) || SlotsEnd(record) <= FirstOffset(record))
  }

  /** The same, with a plain first data attribute. */
  ghost predicate GoodFile(v: Volume, n: nat) {
    GoodFileRecord(v, n) && HasData(FileList(ReadRecord(v, n).value))
  }

  ghost function FileList(record: seq<Byte>): seq<Byte>
    requires |record| >= 28 && FirstOffset(record) <= |record|
  {
    record[FirstOffset(record)..]
  }

  lemma UpdateGood(record: seq<Byte>, data: seq<Byte>)
    requires |record| >= 28 && FirstOffset(record) <= |record| && HasData(FileList(record))
    ensures var (first, p) := (FirstOffset(record), DataSpan(FileList(record)));
      && FindAttribute(record, DATA) == Success(first + p.attr)
      && UpdateResident(record, first + p.attr, data) ==
         if |data| == p.hi - p.lo then Success(Splice(record, first + p.lo, data)) else Failure(InvalidAttribute)
  {
    hide Value, FirstOffset, HasData, FindFrom, DataSpan, Splice, ReadU16, ReadU32;
    var first, s := FirstOffset(record), FileList(record);
    FindsData(s);
    DataHeader(s);
    DataInside(s);
    assert s == record[first..|record|];
    ReadU16At(record, first, |record|, DataSpan(s).attr + 20);
    ReadU32At(record, first, |record|, DataSpan(s).attr + 16);
  }

  lemma {:induction false} DataInside(s: seq<Byte>)
    requires HasData(s)
    ensures var p := DataSpan(s); p.attr + 24 <= p.lo <= p.hi <= |s|
  {
  }

  /** The record after the edit, as far as anything but the value is concerned. */
  lemma EditedRecord(record: seq<Byte>, data: seq<Byte>)
    requires |record| >= 28 && 28 <= FirstOffset(record) <= |record| && HasData(FileList(record))
    requires |data| == |DataValue(FileList(record))|
    ensures var (first, lo) := (FirstOffset(record), DataSpan(FileList(record)).lo);
      var r := Splice(record, first + lo, data);
      && FirstOffset(r) == first && r[0..4] == record[0..4] && UsaOffset(r) == UsaOffset(record)
      && UsaCount(r) == UsaCount(record) && FileList(r) == Splice(FileList(record), lo, data)
  {
    hide Value, HasData, DataSpan, Splice;
    var first, lo := FirstOffset(record), DataSpan(FileList(record)).lo;
    DataInside(FileList(record));
    SpliceOutside(record, first + lo, data, 0, 4);
    SpliceOutside(record, first + lo, data, 4, 8);
    SpliceOutside(record, first + lo, data, 20, 22);
    SpliceTail(record, first, first + lo, data);
    SameDescription(record, Splice(record, first + lo, data));
  }

  /** Overwriting a good file: the length must match; then the record is read back with the new value
      in its first data attribute, and no other record changes. */
  lemma RewriteEffect(v: Volume, n: nat, data: seq<Byte>)
    requires GoodFile(v, n)
    ensures var (r, w) := WriteResidentFile(v, n, data);
      var s := FileList(ReadRecord(v, n).value);
      r.Success? ==>
        && |data| == |DataValue(s)| && OnlySlot(v, w, n)
        && Stat(v, n).Success? && Stat(v, n).value.dataRuns != []
        && Stat(w, n) == StatFrom(Splice(s, DataSpan(s).lo, data), NO_STAT, v.clusterSize)
        && Stat(v, n) == StatFrom(s, NO_STAT, v.clusterSize)
  {
    hide Value, FirstOffset, HasData, DataSpan, Splice, UsaOffset, UsaCount, Apart, FindAttribute, UpdateResident,
         StatFrom, ReadRecord, PutRecord, OnlySlot, Volume.Slot, SameOutside;
    var record := ReadRecord(v, n).value;
    var s, first := FileList(record), FirstOffset(record);
    DataInside(s);
    UpdateGood(record, data);
    FreeOrUsed(v, n);
    ReadLength(v, n);
    if |data| == DataSpan(s).hi - DataSpan(s).lo {
      EditedRecord(record, data);
      var edited := Splice(record, first + DataSpan(s).lo, data);
      PutThenRead(v, n, edited);
      PutKeepsVolume(v, n, edited);
      var (put, w) := PutRecord(v, n, edited);
      if put.Success? {
        var back := ReadRecord(w, n).value;
        if Protected(edited, v.sector) {
          AgreeFrom(edited, back, UsaOffset(edited) + 2, SlotsEnd(edited), first);
        }
        ReadLength(w, n);
        StatByFirst(back, FileList(edited), first, v.clusterSize);
        StatByFirst(record, s, first, v.clusterSize);
      }
    }
  }

  lemma {:induction false} StatByFirst(record: seq<Byte>, s: seq<Byte>, first: nat, cs: nat)
    requires |record| >= 28 && FirstOffset(record) == first <= |record| && record[first..] == s
    ensures StatOf(record, cs) == StatFrom(s, NO_STAT, cs)
  {
  }

  /** The contents a read adds to those of the first run. */
  function LaterContents(v: Volume, n: nat): Outcome<seq<Byte>> {
    var st :- Stat(v, n);
    if st.dataRuns == [] then Success([]) else Contents(v, st.dataRuns[1..])
  }

  /** A successful overwrite of a file whose first data attribute is unnamed: the first data run is the new data,
      and everything else the driver reports of the file is unchanged. */
  lemma RewriteReplaces(v: Volume, n: nat, data: seq<Byte>)
    requires GoodFile(v, n) && Unnamed(FileList(ReadRecord(v, n).value))
    ensures var (r, w) := WriteResidentFile(v, n, data);
      r.Success? ==>
        && OnlySlot(v, w, n) && Stat(v, n).Success? && Stat(v, n).value.dataRuns != []
        && Stat(w, n) == Success(Stat(v, n).value.(dataRuns := [Resident(data)] + Stat(v, n).value.dataRuns[1..]))
        && (!Stat(v, n).value.isDirectory ==>
              ReadFileAll(w, n) == Joined(data, Contents(w, Stat(v, n).value.dataRuns[1..])))
  {
    hide Stat, StatFrom, ReadRecord, WriteResidentFile, OnlySlot, Splice, FirstOffset, DataSpan, HasData, Unnamed,
         Contents;
    RewriteEffect(v, n, data);
    var s := FileList(ReadRecord(v, n).value);
    if WriteResidentFile(v, n, data).0.Success? {
      StatRewritten(s, data, NO_STAT, v.clusterSize);
      FirstThenRest(WriteResidentFile(v, n, data).1, data, Stat(v, n).value.dataRuns[1..]);
    }
  }

  ghost function Joined(data: seq<Byte>, later: Outcome<seq<Byte>>): Outcome<seq<Byte>> {
    if later.Success? then Success(data + later.value) else later
  }

  lemma {:induction false} FirstThenRest(v: Volume, data: seq<Byte>, runs: seq<DataRun>)
    ensures Contents(v, [Resident(data)] + runs) == Joined(data, Contents(v, runs))
  {
    assert ([Resident(data)] + runs)[1..] == runs;
  }

  /** A successful overwrite of a file whose first data attribute is a named stream: the stream holds the data
      afterwards, and the file still has the runs it had. */
  lemma RewriteHitsStream(v: Volume, n: nat, data: seq<Byte>)
    requires GoodFile(v, n) && !Unnamed(FileList(ReadRecord(v, n).value))
    ensures var (r, w) := WriteResidentFile(v, n, data);
      r.Success? ==>
        && OnlySlot(v, w, n)
        && NewFirstStream(Stat(v, n), Stat(w, n), DataValue(FileList(ReadRecord(v, n).value)), data)
        && (RunsApart(v, n) ==> ReadFileAll(w, n) == ReadFileAll(v, n))
  {
    hide Stat, StatFrom, ReadRecord, WriteResidentFile, OnlySlot, Splice, FirstOffset, DataSpan, HasData, Unnamed,
         Contents, ExtentsApart;
    RewriteEffect(v, n, data);
    var s := FileList(ReadRecord(v, n).value);
    if WriteResidentFile(v, n, data).0.Success? {
      StatRewritten(s, data, NO_STAT, v.clusterSize);
      if RunsApart(v, n) {
        ContentsApart(v, WriteResidentFile(v, n, data).1, n, Stat(v, n).value.dataRuns);
      }
    }
  }

  // ----- Exactly when an overwrite is right

  /** Exactly when an overwrite does what it says: a later read returns the new data if and only if the first data
      attribute is unnamed and the later ones contribute nothing, or the file held that data already. */
  lemma RewriteCorrectIff(v: Volume, n: nat, data: seq<Byte>)
    requires GoodFile(v, n) && WriteResidentFile(v, n, data).0.Success? && RunsApart(v, n)
    requires Stat(v, n).Success? ==> !Stat(v, n).value.isDirectory
    ensures ReadFileAll(WriteResidentFile(v, n, data).1, n) == Success(data) <==>
            || (Unnamed(FileList(ReadRecord(v, n).value)) && LaterContents(v, n) == Success([]))
            || ReadFileAll(v, n) == Success(data)
  {
    hide Stat, ReadRecord, WriteResidentFile, OnlySlot, FirstOffset, HasData, Unnamed, DataSpan, Contents, ExtentsApart;
    if Unnamed(FileList(ReadRecord(v, n).value)) {
      RewriteReplaces(v, n, data);
      ContentsApart(v, WriteResidentFile(v, n, data).1, n, Stat(v, n).value.dataRuns[1..]);
      if ReadFileAll(v, n) == Success(data) {
        HeldBefore(v, n, data);
      }
      NothingAfter(data, LaterContents(v, n));
    } else {
      RewriteHitsStream(v, n, data);
    }
  }

  lemma NothingAfter(data: seq<Byte>, later: Outcome<seq<Byte>>)
    ensures later.Success? ==> (data + later.value == data <==> later.value == [])
  {
    if later.Success? {
      assert |data + later.value| == |data| + |later.value|;
    }
  }

  /** If the file held the data before, nothing was added to the first run. */
  lemma HeldBefore(v: Volume, n: nat, data: seq<Byte>)
    requires GoodFile(v, n) && Unnamed(FileList(ReadRecord(v, n).value))
    requires WriteResidentFile(v, n, data).0.Success? && ReadFileAll(v, n) == Success(data)
    ensures LaterContents(v, n) == Success([])
  {
    hide Stat, StatFrom, ReadRecord, WriteResidentFile, OnlySlot, Splice, FirstOffset, DataSpan, HasData, Unnamed,
         Contents;
    RewriteEffect(v, n, data);
    var s := FileList(ReadRecord(v, n).value);
    StatRewritten(s, data, NO_STAT, v.clusterSize);
    var runs := Stat(v, n).value.dataRuns;
    assert runs == [runs[0]] + runs[1..];
    FirstThenRest(v, DataValue(s), runs[1..]);
    var later := LaterContents(v, n);
    if later.Success? {
      assert |DataValue(s) + later.value| == |DataValue(s)| + |later.value|;
    }
  }

  /** A first data attribute with a zero in the value-length field, as in every non-resident one that starts at
      cluster 0: a success means that the data was empty, and nothing changes. */
  lemma RewriteOfNothing(v: Volume, n: nat, data: seq<Byte>)
    requires GoodFileRecord(v, n)
    requires var (record, at) := (ReadRecord(v, n).value, FindAttribute(ReadRecord(v, n).value, DATA));
      at.Success? && at.value + 24 <= |record| && ReadU32(record, at.value + 16) == 0
    ensures var (r, w) := WriteResidentFile(v, n, data);
      r.Success? ==>
        && data == [] && OnlySlot(v, w, n) && Stat(w, n) == Stat(v, n)
        && (RunsApart(v, n) ==> ReadFileAll(w, n) == ReadFileAll(v, n))
  {
    hide Contents, ExtentsApart, Value, FirstOffset, UsaOffset, UsaCount, Apart, FindAttribute, StatFrom, ReadRecord,
         PutRecord, OnlySlot,
         Volume.Slot, SameOutside, ReadU16, ReadU32, StatOf, Splice;
    var record := ReadRecord(v, n).value;
    var first := FirstOffset(record);
    FreeOrUsed(v, n);
    ReadLength(v, n);
    if WriteResidentFile(v, n, data).0.Success? {
      var start := FindAttribute(record, DATA).value + ReadU16(record, FindAttribute(record, DATA).value + 20);
      NoSplice(record, start);
      PutThenRead(v, n, record);
      PutKeepsVolume(v, n, record);
      var w := PutRecord(v, n, record).1;
      var back := ReadRecord(w, n).value;
      if Protected(record, v.sector) {
        AgreeFrom(record, back, UsaOffset(record) + 2, SlotsEnd(record), first);
      }
      ReadLength(w, n);
      StatByFirst(back, FileList(record), first, v.clusterSize);
      StatByFirst(record, FileList(record), first, v.clusterSize);
      if Stat(v, n).Success? && RunsApart(v, n) {
        ContentsApart(v, w, n, Stat(v, n).value.dataRuns);
      }
    }
  }

  lemma NoSplice(b: seq<Byte>, at: nat)
    ensures at <= |b| ==> Splice(b, at, []) == b
  {
  }
}
