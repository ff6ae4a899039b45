/** Directories on a small device in which creations succeed, leave orphans, and lose names. */
module NtfsWitness {
  import opened Wrappers
  import opened Text
  import opened Bytes
  import opened NtfsTypes
  import opened NtfsRuns
  import opened NtfsFixups
  import opened NtfsAttributes
  import opened NtfsIndex
  import opened NtfsInsert
  import opened NtfsExternal
  import opened NtfsDirectory
  import opened NtfsBuild
  import opened NtfsBuiltRecord
  import opened NtfsVolume
  import opened NtfsPaths
  import opened NtfsCreate
  import opened NtfsOpen
  import opened NtfsOverflow
  import opened NtfsOutcome
  import opened NtfsSmall

  // ----- An empty index in a root directory's record

  const BLOCK: nat := 1024

  /** An empty index with `room` bytes to spare. */
  function EmptyIndex(room: nat): (s: seq<Byte>)
    ensures |s| == 48 + room
  {
    Zeros(8) + LE(4, BLOCK) + Zeros(4) + (LE(4, 16) + LE(4, 32) + LE(4, 32 + room) + Zeros(4))
    + (LE(8, 0) + LE(2, 16) + LE(2, 0) + LE(2, 2) + Zeros(2)) + Zeros(room)
  }

  /** Room that keeps the attribute a multiple of eight and lets it fit into the record. */
  predicate FitsRoot(room: nat) {
    room % 8 == 0 && room <= 800
  }

  function RootAttr(room: nat): (a: seq<Byte>)
    requires FitsRoot(room)
    ensures |a| == 72 + room
  {
    Attr(INDEX_ROOT, EmptyIndex(room), 0)
  }

  lemma EmptyIndexFields(room: nat)
    requires room <= 800
    ensures var v := EmptyIndex(room);
      && FirstEntry(v) == 16 && TotalSize(v) == 32 && AllocatedSize(v) == 32 + room && IsEnd(v, 32)
      && ReadU32(v, 8) == BLOCK
  {
    hide LE, Value, Pow256;
    var v := EmptyIndex(room);
    Widths();
    ValueFits(4, BLOCK);
    ValueFits(4, 16);
    ValueFits(4, 32);
    ValueFits(4, 32 + room);
    ValueFits(2, 2);
    assert v[8..12] == LE(4, BLOCK);
    assert v[16..20] == LE(4, 16) && v[20..24] == LE(4, 32) && v[24..28] == LE(4, 32 + room);
    assert v[44..46] == LE(2, 2);
  }

  lemma EmptyIndexGood(room: nat)
    requires room <= 800
    ensures GoodIndex(EmptyIndex(room)) && Entries(EmptyIndex(room)) == []
  {
    hide EmptyIndex, FirstEntry, TotalSize, AllocatedSize, IsEnd;
    EmptyIndexFields(room);
  }

  /** Attributes behind the index root that the driver walks over without taking note of them. */
  ghost predicate Passed(rest: seq<Byte>) {
    NoIndexRoot(rest) && forall st: NtfsStat :: StatFrom(rest, st, CLUSTER) == Success(st)
  }

  lemma {:induction false} RootList(room: nat, rest: seq<Byte>)
    requires FitsRoot(room) && Passed(rest)
    ensures var s := RootAttr(room) + rest;
      && DirAttributes(s) && IndexValue(s) == EmptyIndex(room) && StatFrom(s, NO_STAT, CLUSTER).Success?
      && FindFrom(s, INDEX_ROOT) == Success(0)
      && FindFrom(s, INDEX_ALLOCATION) == Offset(72 + room, FindFrom(rest, INDEX_ALLOCATION))
  {
    hide Attr, EmptyIndex, LE, NextAttribute, GoodIndex, Value, AbsorbIndexRoot, FindFrom;
    NextBuilt(INDEX_ROOT, EmptyIndex(room), 0, rest);
    AttrFields(INDEX_ROOT, EmptyIndex(room), 0);
    FindFirst(INDEX_ROOT, EmptyIndex(room), 0, rest, INDEX_ROOT);
    FindFirst(INDEX_ROOT, EmptyIndex(room), 0, rest, INDEX_ALLOCATION);
    EmptyIndexGood(room);
    var a := RootAttr(room);
    assert EmptyIndex(room) + Zeros(0) == EmptyIndex(room);
    assert (a + rest)[24..|a|] == a[24..];
    RootAbsorbed(a);
  }

  lemma RootAbsorbed(a: seq<Byte>)
    requires |a| >= 24
    ensures Absorb(NO_STAT, INDEX_ROOT, a, true, CLUSTER).Success?
  {
  }

  /** A record with such attributes is a good, empty directory. */
  lemma RootGood(v: Volume, room: nat, more: seq<Byte>)
    requires Shaped(v) && FitsRoot(room) && |more| <= 80 && Passed(more + After(72 + room + |more|))
    ensures var (w, attrs) := (With(v, ROOT, RootAttr(room) + more), RootAttr(room) + more);
      && Shaped(w) && OnlySlot(v, w, ROOT) && GoodParent(w, ROOT) && ParentEntries(w, ROOT) == []
      && var record := ReadRecord(w, ROOT).value;
         && Holds(record, attrs) && AttributeList(record) == RootAttr(room) + (more + After(|attrs|))
         && IndexValue(AttributeList(record)) == EmptyIndex(room) && Refixable(record, SECTOR)
  {
    hide RootAttr, EmptyIndex, With, ReadRecord, OnlySlot, IndexValue, DirAttributes, Entries, UsaOffset, UsaCount,
         Value, StatFrom, FirstOffset, Protected, SignatureClear, FindFrom, Passed, After;
    var attrs := RootAttr(room) + more;
    Placed(v, ROOT, attrs);
    var w := With(v, ROOT, attrs);
    var record := ReadRecord(w, ROOT).value;
    HoldsSafe(record, attrs);
    Assoc(RootAttr(room), more, After(|attrs|));
    RootList(room, more + After(|attrs|));
    EmptyIndexGood(room);
  }

  lemma NothingBehind(n: nat)
    requires n <= RECORD - 60
    ensures Passed([] + After(n)) && FindFrom([] + After(n), INDEX_ALLOCATION).Failure?
  {
    hide LE, FindFrom;
    assert [] + After(n) == After(n);
    StopsAtMark(RECORD - 60 - n);
    FindEnds(RECORD - 60 - n, INDEX_ALLOCATION);
  }

  // ----- A root directory without an external index

  function Root(room: nat): Volume
    requires FitsRoot(room)
  {
    With(Blank([]), ROOT, RootAttr(room) + [])
  }

  /** The root is a good, empty directory with the given room, everything can be read and written, and slot 16 is
      free. */
  lemma RootIsGood(room: nat)
    requires FitsRoot(room)
    ensures var v := Root(room);
      && Shaped(v) && GoodParent(v, ROOT) && ParentEntries(v, ROOT) == [] && SmallParent(v, ROOT)
      && IsFree(v, START_SCAN) && FirstFree(v) == START_SCAN && Refixable(ReadRecord(v, ROOT).value, SECTOR)
      && IndexValue(AttributeList(ReadRecord(v, ROOT).value)) == EmptyIndex(room)
      && ReadU32(ReadRecord(v, ROOT).value, 24) == 132 + room
  {
    hide With, OnlySlot, IsFree, GoodRecord, IndexValue, ReadRecord, RootAttr, Passed, Holds, Refixable, FindFrom,
         Entries, Small, DirAttributes, FirstFree;
    BlankSlots([], ROOT);
    BlankSlots([], START_SCAN);
    NothingBehind(72 + room);
    RootGood(Blank([]), room, []);
    var record := ReadRecord(Root(room), ROOT).value;
    HoldsMeans(record, RootAttr(room) + []);
    RootList(room, [] + After(72 + room));
    SmallByList(record);
    Slot16Free(Blank([]), Root(room));
  }

  lemma Slot16Free(v: Volume, w: Volume)
    requires OnlySlot(v, w, ROOT) && IsFree(v, START_SCAN) && v.recordSize == w.recordSize == RECORD
    ensures IsFree(w, START_SCAN) && FirstFree(w) == START_SCAN
  {
    hide OnlySlot, Volume.Slot;
    OtherSlot(v, w, ROOT, START_SCAN);
  }

  /** With 600 bytes of room, every name of at most 255 UTF-8 bytes can be created, whatever its characters, if its
      record fits. */
  lemma {:induction false} EveryNameIsCreated(name: string, isDirectory: bool, data: seq<Byte>)
    requires Utf8Length(name) <= 255 && RecordFits(RECORD, name, isDirectory, data)
    ensures CreateFile(Root(600), ROOT, name, isDirectory, data).0.Success?
  {
    hide Root, GoodParent, ParentEntries, IsFree, RecordFits, ReadRecord, CreateFile, IndexValue, Refixable,
         EmptyIndex, AttributeList, Utf16, SmallParent, FirstFree;
    var v := Root(600);
    RootIsGood(600);
    EmptyIndexGood(600);
    EmptyIndexFields(600);
    NothingToFind(name);
    Utf16NoLongerThanUtf8(name);
    EntryFits(Utf16(name));
    CreateSucceedsIff(v, ROOT, name, isDirectory, data);
  }

  lemma EntryFits(units: seq<U16>)
    requires |units| <= 255
    ensures 0 < EntrySize(units) <= 600
  {
  }

  lemma {:induction false} NothingToFind(name: string)
    ensures Lookup([], name).Failure?
  {
  }

  /** Among them a file called `..`, which no path can then open. */
  lemma DotDotIsCreated(path: string)
    ensures var (r, w) := CreateFile(Root(600), ROOT, "..", false, []);
      r.Success? && Open(w, path + "/..").Failure?
  {
    hide Root, CreateFile, Open;
    ShortNameFits("..");
    EveryNameIsCreated("..", false, []);
    DotDotNeverOpens(CreateFile(Root(600), ROOT, "..", false, []).1, path);
  }

  lemma {:induction false} ShortNameFits(name: string)
    requires |name| == 2 && IsAscii(name)
    ensures Utf8Length(name) <= 255 && RecordFits(RECORD, name, false, [])
  {
    assert Utf8Length(name[1..]) == 1 + Utf8Length(name[1..][1..]);
    Utf16NoLongerThanUtf8(name);
  }

  /** With no room, every creation that is otherwise in order fails and leaves its record behind. */
  lemma {:induction false} FullRootLeavesOrphans(name: string, isDirectory: bool, data: seq<Byte>)
    requires Utf8Length(name) <= 255 && RecordFits(RECORD, name, isDirectory, data)
    ensures var (r, w) := CreateFile(Root(0), ROOT, name, isDirectory, data);
      r.Failure? && w != Root(0) && Stat(w, START_SCAN) == Success(NewStat(RECORD, name, isDirectory, data))
  {
    hide Root, GoodParent, ParentEntries, IsFree, RecordFits, ReadRecord, CreateFile, IndexValue, Refixable,
         SmallParent, EmptyIndex, AttributeList, Utf16, OnlySlot, Stat, Prepare, NewStat, PutRecord, Lookup, FirstFree,
         BlockApart;
    var v := Root(0);
    RootIsGood(0);
    EmptyIndexFields(0);
    NothingToFind(name);
    SmallIsApart(v, ROOT, START_SCAN);
    OrphanIff(v, ROOT, name, isDirectory, data);
    PreparedIff(v, ROOT, name, isDirectory, data);
    FailedCreation(v, ROOT, name, isDirectory, data);
  }

  /** A directory without an external index names no block. */
  lemma SmallIsApart(v: Volume, parent: nat, m: nat)
    requires GoodParent(v, parent) && SmallParent(v, parent)
    ensures BlockApart(v, parent, m)
  {
    hide ReadRecord, GoodRecord, FindAttribute, ParseDataRuns;
  }

  // ----- A root directory with an external index

  /** The header of a non-resident index allocation, with one extent: cluster 8. */
  function Allocation(): (a: seq<Byte>)
    ensures |a| == 72
  {
    LE(4, INDEX_ALLOCATION) + LE(4, 72) + [1] + Zeros(23) + LE(2, 64) + Zeros(6) + LE(8, CLUSTER) + Zeros(16)
    + [0x11, 1, 8] + Zeros(5)
  }

  lemma AllocationFields(rest: seq<Byte>)
    ensures var s := Allocation() + rest;
      && ReadU32(s, 0) == INDEX_ALLOCATION && ReadU32(s, 4) == 72 && s[8] == 1
      && ReadU16(s, 32) == 64 && ReadU64(s, 40) == CLUSTER
      && s[64..68] == [0x11, 1, 8, 0] && s[72..] == rest && s[..72] == Allocation()
  {
    hide LE, Value, Pow256;
    var s := Allocation() + rest;
    Widths();
    ValueFits(4, INDEX_ALLOCATION);
    ValueFits(4, 72);
    ValueFits(2, 64);
    ValueFits(8, CLUSTER);
    assert s[0..4] == LE(4, INDEX_ALLOCATION) && s[4..8] == LE(4, 72);
    assert s[32..34] == LE(2, 64) && s[40..48] == LE(8, CLUSTER);
  }

  /** The data runs in it. */
  lemma AllocationRuns(rest: seq<Byte>)
    ensures ParseDataRuns(Allocation() + rest) == Success([(8, 1)])
  {
    hide Allocation, Value, Pow256;
    AllocationFields(rest);
    var s := Allocation() + rest;
    OneRunOnly(s[64..]);
  }

  lemma {:induction false} OneRunOnly(s: seq<Byte>)
    requires |s| >= 4 && s[..4] == [0x11, 1, 8, 0]
    ensures DecodeRuns(s, 0) == Success([(8, 1)])
  {
    hide FirstRun, RunLength, Usable;
    FirstOfTwo(s);
    assert DecodeRuns(s[3..], 8) == Success([]);
    assert [(8, 1)] + [] == [(8, 1)];
  }

  lemma FirstOfTwo(s: seq<Byte>)
    requires |s| >= 4 && s[..4] == [0x11, 1, 8, 0]
    ensures Usable(s) && RunLength(s) == 3 && FirstRun(s, 0) == Success((8, 1)) && !Usable(s[3..])
  {
    assert s[0] == s[..4][0] && s[1] == s[..4][1] && s[2] == s[..4][2] && s[3] == s[..4][3];
    assert s[1..2] == [1] && s[2..3] == [8] && s[3..][0] == 0;
    SmallValues();
  }

  lemma SmallValues()
    ensures Value([1]) == 1 && Signed([8]) == 8
  {
    assert [1][1..] == [] && [8][1..] == [];
  }

  lemma AllocationNext(n: nat)
    requires n <= RECORD - 60
    ensures var s := Allocation() + After(n);
      && NextAttribute(s) == Attribute(INDEX_ALLOCATION, Allocation(), false) && s[72..] == After(n)
      && NextAttribute(After(n)) == Stop && FindFrom(s, INDEX_ALLOCATION) == Success(0)
  {
    hide Allocation, LE, Value;
    AllocationFields(After(n));
    StopsAtMark(RECORD - 60 - n);
  }

  lemma AllocationPassed(n: nat)
    requires n <= RECORD - 60
    ensures Passed(Allocation() + After(n)) && FindFrom(Allocation() + After(n), INDEX_ALLOCATION) == Success(0)
  {
    hide Allocation, After, NextAttribute, FindFrom;
    AllocationNext(n);
    var s := Allocation() + After(n);
    assert NoIndexRoot(After(n));
    assert NoIndexRoot(s);
    forall st: NtfsStat
      ensures StatFrom(s, st, CLUSTER) == Success(st)
    {
      assert Absorb(st, INDEX_ALLOCATION, Allocation(), false, CLUSTER) == Success(st);
      assert StatFrom(After(n), st, CLUSTER) == Success(st);
    }
  }

  /** A block with room for any entry, as the program reads its header. */
  function Block(): (b: seq<Byte>)
    ensures |b| == BLOCK
  {
    INDX_SIGNATURE + LE(2, 40) + LE(2, 1) + Zeros(16) + LE(2, 40) + LE(2, 0) + LE(2, 1000) + Zeros(994)
  }

  lemma BlockTakesAny(e: seq<Byte>)
    requires |e| <= 600
    ensures BlockEdited(Block(), e).Success?
  {
    hide LE, Value, Pow256;
    var b := Block();
    Widths();
    ValueFits(2, 40);
    ValueFits(2, 1);
    ValueFits(2, 0);
    ValueFits(2, 1000);
    assert b[0..4] == INDX_SIGNATURE && b[4..6] == LE(2, 40) && b[6..8] == LE(2, 1);
    assert b[24..26] == LE(2, 40) && b[26..28] == LE(2, 0) && b[28..30] == LE(2, 1000);
  }

  /** A root directory whose own index is full, with a block of its external index at cluster 8. */
  function LargeRoot(): Volume {
    With(Blank(Block()), ROOT, RootAttr(0) + Allocation())
  }

  lemma LargeRootIsGood()
    ensures var v := LargeRoot();
      && Shaped(v) && GoodParent(v, ROOT) && ParentEntries(v, ROOT) == []
      && IsFree(v, START_SCAN) && FirstFree(v) == START_SCAN
      && IndexValue(AttributeList(ReadRecord(v, ROOT).value)) == EmptyIndex(0)
      && BlockOf(v, ReadRecord(v, ROOT).value) == Success((DEVICE / 2, BLOCK))
      && v.disk.Read(DEVICE / 2, BLOCK) == Some(Block()) && !SmallParent(v, ROOT)
  {
    hide With, OnlySlot, IsFree, GoodRecord, IndexValue, ReadRecord, RootAttr, Passed, Holds, Refixable, FindFrom,
         Entries, Small, DirAttributes, FirstFree, Allocation, Block, IndexBlock, EmptyIndex;
    var blank := Blank(Block());
    BlankSlots(Block(), ROOT);
    BlankSlots(Block(), START_SCAN);
    AllocationPassed(144);
    RootGood(blank, 0, Allocation());
    var record := ReadRecord(LargeRoot(), ROOT).value;
    HoldsMeans(record, RootAttr(0) + Allocation());
    Assoc(RootAttr(0), Allocation(), After(144));
    RootList(0, Allocation() + After(144));
    SmallByList(record);
    Slot16Free(blank, LargeRoot());
    LargeBlock(record);
    MiddleStays(blank, ROOT, RootAttr(0) + Allocation(), BLOCK);
    assert blank.disk.bytes[DEVICE / 2..DEVICE / 2 + BLOCK] == Block();
  }

  /** Where the program looks for the block. */
  lemma LargeBlock(record: seq<Byte>)
    requires |record| == RECORD && FirstOffset(record) == 56
    requires record[56..] == RootAttr(0) + (Allocation() + After(144))
    ensures IndexBlock(record, DEVICE, CLUSTER) == Success((DEVICE / 2, BLOCK))
  {
    hide Allocation, RootAttr, LE, Value, FindFrom, ParseDataRuns, FirstOffset, Passed, After, ReadU16,
         ReadU32, ReadU64;
    AllocationPassed(144);
    RootList(0, Allocation() + After(144));
    assert FindAttribute(record, INDEX_ROOT) == Success(56);
    assert FindAttribute(record, INDEX_ALLOCATION) == Success(128);
    RootPart(record);
    AllocationPart(record);
  }

  lemma RootPart(record: seq<Byte>)
    requires |record| == RECORD && record[56..] == RootAttr(0) + (Allocation() + After(144))
    ensures ReadU16(record, 76) == 24 && ReadU32(record, 88) == BLOCK
  {
    hide Attr, EmptyIndex, Allocation, LE, Value, After;
    AttrFields(INDEX_ROOT, EmptyIndex(0), 0);
    EmptyIndexFields(0);
    assert record[56..128] == RootAttr(0) by {
      assert record[56..128] == record[56..][..72];
    }
    SliceOfSlice(record, 56, 128, 20, 22);
    SliceOfSlice(record, 56, 128, 32, 36);
    SliceOfSlice(RootAttr(0), 24, 72, 8, 12);
  }

  lemma AllocationPart(record: seq<Byte>)
    requires |record| == RECORD && record[56..] == RootAttr(0) + (Allocation() + After(144))
    ensures ParseDataRuns(record[128..]) == Success([(8, 1)]) && record[136] == 1 && ReadU64(record, 168) == CLUSTER
  {
    hide RootAttr, Allocation, LE, Value, After, ParseDataRuns;
    var rest := Allocation() + After(144);
    AllocationFields(After(144));
    AllocationRuns(After(144));
    assert record[128..] == rest by {
      assert record[128..] == record[56..][72..];
    }
    assert record[168..176] == rest[40..48] && record[136] == rest[8];
  }

  /** No name fits into its own index. */
  lemma LargeRootFull(name: string)
    ensures GoodParent(LargeRoot(), ROOT) && !InPlace(LargeRoot(), ROOT, name)
  {
    hide LargeRoot, GoodParent, ReadRecord, IndexValue, EmptyIndex, AttributeList, Utf16, Block, BlockOf, EntrySize,
         SmallParent, IsFree, FirstFree, ParentEntries, Shaped;
    LargeRootIsGood();
    EmptyIndexFields(0);
    SizePositive(Utf16(name));
  }

  lemma SizePositive(units: seq<U16>)
    ensures EntrySize(units) > 0
  {
  }

  /** The block overlaps neither record and takes every name. */
  lemma {:induction false} LargeRootTakes(name: string)
    requires |Utf16(name)| <= 255
    ensures var v := LargeRoot();
      && ReadRecord(v, ROOT).Success? && BlockApart(v, ROOT, ROOT) && BlockApart(v, ROOT, START_SCAN)
      && BlockTakes(v, ReadRecord(v, ROOT).value, EntryBytes(START_SCAN, ROOT, Utf16(name)))
  {
    hide LargeRoot, GoodRecord, ReadRecord, IndexValue, EmptyIndex, AttributeList, Utf16, Block, BlockOf, EntryBytes,
         SmallParent, IsFree, FirstFree, ParentEntries, Volume.Slot, EntrySize, BlockEdited;
    var v := LargeRoot();
    LargeRootIsGood();
    EntryFits(Utf16(name));
    BlockTakesAny(EntryBytes(START_SCAN, ROOT, Utf16(name)));
    SlotFits(v, START_SCAN);
    SlotFits(v, ROOT);
  }

  /** There every creation that is in order is reported as a success, and every name is lost. */
  lemma {:induction false} EveryNameIsLost(name: string, isDirectory: bool, data: seq<Byte>)
    requires Utf8Length(name) <= 255 && RecordFits(RECORD, name, isDirectory, data)
    ensures GoodParent(LargeRoot(), ROOT)
    ensures var (r, w) := CreateFile(LargeRoot(), ROOT, name, isDirectory, data);
      r.Success? && Lost(LargeRoot(), w, ROOT, r.value, name, isDirectory, data)
  {
    hide LargeRoot, GoodParent, ParentEntries, IsFree, RecordFits, ReadRecord, CreateFile, InPlace, Utf16, Prepare,
         Lookup, FirstFree, Lost, BlockTakes, BlockApart, EntryBytes, IndexValue, EmptyIndex, BlockOf, Block,
         SmallParent, Stat, PutRecord;
    var v := LargeRoot();
    LargeRootIsGood();
    NothingToFind(name);
    Utf16NoLongerThanUtf8(name);
    LargeRootFull(name);
    LargeRootTakes(name);
    CreateSucceedsIff(v, ROOT, name, isDirectory, data);
    PreparedIff(v, ROOT, name, isDirectory, data);
    FullDirectoryLosesNames(v, ROOT, name, isDirectory, data);
  }
}
