/** A file on a small device whose first data attribute is a named stream, which an overwrite hits. */
module NtfsStream {
  import opened Wrappers
  import opened Bytes
  import opened NtfsTypes
  import opened NtfsFixups
  import opened NtfsAttributes
  import opened NtfsBuild
  import opened NtfsBuiltRecord
  import opened NtfsVolume
  import opened NtfsCreate
  import opened NtfsExtents
  import opened NtfsOutcome
  import opened NtfsRewrite
  import opened NtfsLifecycle
  import opened NtfsSmall

  type Eight = s: seq<Byte> | |s| == 8 witness Zeros(8)

  const SLOT: nat := 16

  /** A resident data attribute with the name `s` and eight bytes. */
  function StreamAttr(x: Eight): (a: seq<Byte>)
    ensures |a| == 40
  {
    LE(4, DATA) + LE(4, 40) + [0, 1] + LE(2, 24) + Zeros(4) + LE(4, 8) + LE(2, 32) + Zeros(2) + LE(2, 's' as nat)
    + Zeros(6) + x
  }

  lemma StreamFields(x: Eight, rest: seq<Byte>)
    ensures var (a, s) := (StreamAttr(x), StreamAttr(x) + rest);
      && NextAttribute(s) == Attribute(DATA, a, true) && s[40..] == rest
      && a[9] == 1 && ReadU32(a, 16) == 8 && ReadU16(a, 20) == 32 && a[32..40] == x
  {
    hide LE, Value, Pow256;
    var a, s := StreamAttr(x), StreamAttr(x) + rest;
    Widths();
    ValueFits(4, DATA);
    ValueFits(4, 40);
    ValueFits(4, 8);
    ValueFits(2, 32);
    assert s[0..4] == LE(4, DATA) && s[4..8] == LE(4, 40) && s[8] == 0;
    assert a[16..20] == LE(4, 8) && a[20..22] == LE(2, 32);
    assert s[..40] == a;
  }

  /** The stream comes first, and then the contents. */
  function StreamAttrs(x: Eight, y: Eight): (s: seq<Byte>)
    ensures |s| == 72
  {
    StreamAttr(x) + Attr(DATA, y, 0)
  }

  lemma StreamList(x: Eight, y: Eight)
    ensures var s := StreamAttr(x) + (Attr(DATA, y, 0) + After(72));
      HasData(s) && !Unnamed(s) && DataValue(s) == x
  {
    hide StreamAttr, NextAttribute, Value;
    StreamFields(x, Attr(DATA, y, 0) + After(72));
    FirstData(StreamAttr(x) + (Attr(DATA, y, 0) + After(72)));
  }

  lemma StreamStat(x: Eight, y: Eight)
    ensures var st := StatFrom(StreamAttr(x) + (Attr(DATA, y, 0) + After(72)), NO_STAT, CLUSTER);
      st.Success? && st.value.dataRuns == [Resident(y)] && !st.value.isDirectory
  {
    hide StreamAttr, NextAttribute, Value, Attr, After, Absorb, ParseStreamName, PlainValue;
    var a, b, rest := StreamAttr(x), Attr(DATA, y, 0), Attr(DATA, y, 0) + After(72);
    StreamFields(x, rest);
    PlainEight(a, x, 32);
    AbsorbPlain(NO_STAT, a, true, CLUSTER);
    var one := AddRun(NO_STAT, a, 8, Resident(x));
    assert StatFrom(a + rest, NO_STAT, CLUSTER) == StatFrom(rest, one, CLUSTER);
    NextBuilt(DATA, y, 0, After(72));
    AttrFields(DATA, y, 0);
    PlainEight(b, y, 24);
    AbsorbPlain(one, b, true, CLUSTER);
    var two := AddRun(one, b, 8, Resident(y));
    assert StatFrom(rest, one, CLUSTER) == StatFrom(After(72), two, CLUSTER);
    EndsThere(72);
    assert [] + [Resident(y)] == [Resident(y)];
  }

  lemma PlainEight(a: seq<Byte>, x: Eight, at: nat)
    requires |a| >= 24 && ReadU16(a, 20) == at >= 24 && ReadU32(a, 16) == 8 && at + 8 <= |a| && a[at..at + 8] == x
    ensures PlainValue(a, true) && a[ReadU16(a, 20)..ReadU16(a, 20) + ReadU32(a, 16)] == x
  {
    hide Value;
  }

  lemma EndsThere(n: nat)
    requires n <= RECORD - 60
    ensures NextAttribute(After(n)) == Stop
  {
    hide LE, NextAttribute;
    StopsAtMark(RECORD - 60 - n);
  }

  function StreamFile(x: Eight, y: Eight): Volume {
    With(Blank([]), SLOT, StreamAttrs(x, y))
  }

  lemma StreamFileIsGood(x: Eight, y: Eight)
    ensures var v := StreamFile(x, y);
      && Shaped(v) && GoodFile(v, SLOT) && ReadFileAll(v, SLOT) == Success(y) && RunsApart(v, SLOT)
      && Stat(v, SLOT).Success? && Stat(v, SLOT).value.dataRuns == [Resident(y)]
      && var record := ReadRecord(v, SLOT).value;
         !Unnamed(FileList(record)) && DataValue(FileList(record)) == x && Refixable(record, SECTOR)
  {
    hide With, ReadRecord, Holds, StreamAttr, Attr, After, HasData, Unnamed, DataSpan, UsaOffset, UsaCount, Value,
         StatFrom, FirstOffset, Protected, SignatureClear, OnlySlot;
    BlankSlots([], SLOT);
    Placed(Blank([]), SLOT, StreamAttrs(x, y));
    var v := StreamFile(x, y);
    var record := ReadRecord(v, SLOT).value;
    HoldsMeans(record, StreamAttrs(x, y));
    HoldsSafe(record, StreamAttrs(x, y));
    Assoc(StreamAttr(x), Attr(DATA, y, 0), After(72));
    StreamList(x, y);
    StreamStat(x, y);
    OneRun(v, y);
  }

  /** Overwriting this file with other contents of the same length reports success and changes nothing that a read
      returns. */
  lemma StreamIsHit(x: Eight, y: Eight, z: Eight)
    ensures var (r, w) := WriteResidentFile(StreamFile(x, y), SLOT, z);
      && r.Success? && ReadFileAll(StreamFile(x, y), SLOT) == Success(y) && ReadFileAll(w, SLOT) == Success(y)
      && Stat(w, SLOT).Success? && Stat(w, SLOT).value.streams != []
      && Stat(w, SLOT).value.streams[0].data == Resident(z)
  {
    hide StreamFile, WriteResidentFile, Stat, ReadRecord, GoodFile, Unnamed, DataSpan, FileList, Refixable, OnlySlot,
         RunsApart;
    StreamFileIsGood(x, y);
    RewriteSucceedsIff(StreamFile(x, y), SLOT, z);
    RewriteHitsStream(StreamFile(x, y), SLOT, z);
  }
}
