/** Creating files: what the volume holds afterwards, once and over whole sequences of creations. */
module NtfsCreate {
  import opened Wrappers
  import opened Text
  import opened Bytes
  import opened NtfsTypes
  import opened NtfsFixups
  import opened NtfsAttributes
  import opened NtfsIndex
  import opened NtfsInsert
  import opened NtfsDirectory
  import opened NtfsBuild
  import opened NtfsBuiltRecord
  import opened NtfsVolume

  // ----- Records on disk

  /** Fixups, if the record has any, can be undone and redone without touching anything else. */
  ghost predicate FixupsSafe(record: seq<Byte>, sector: nat) {
    (Protected(record, sector) && SignatureClear(record, sector)) || Unprotected(record)
  }

  lemma SlotsApart(v: Volume, n: nat, m: nat)
    requires n != m
    ensures v.Slot(n) + v.recordSize <= v.Slot(m) || v.Slot(m) + v.recordSize <= v.Slot(n)
  {
    if n < m {
      MulMonotone(n + 1, m, v.recordSize);
    } else {
      MulMonotone(m + 1, n, v.recordSize);
    }
  }

  /** `w` differs from `v` at most in the slot of record `n`. */
  ghost predicate OnlySlot(v: Volume, w: Volume, n: nat) {
    exists data: seq<Byte> :: PutThere(v, w, n, data)
  }

  ghost predicate PutThere(v: Volume, w: Volume, n: nat, data: seq<Byte>) {
    && |data| == v.recordSize && v.Slot(n) + |data| <= |v.disk.bytes|
    && w == v.(disk := v.disk.Put(v.Slot(n), data))
  }

  lemma OnlySlotGeometry(v: Volume, w: Volume, n: nat)
    requires OnlySlot(v, w, n)
    ensures w == v.(disk := w.disk) && w.disk.readable == v.disk.readable && w.disk.writable == v.disk.writable
  {
  }

  lemma SameSlot(v: Volume, w: Volume, n: nat)
    requires w.mftOffset == v.mftOffset && w.recordSize == v.recordSize
    ensures w.Slot(n) == v.Slot(n)
  {
  }

  /** Writing one record leaves every other record as it was. */
  lemma OtherSlot(v: Volume, w: Volume, n: nat, m: nat)
    requires OnlySlot(v, w, n) && m != n
    ensures w.disk.Read(w.Slot(m), w.recordSize) == v.disk.Read(v.Slot(m), v.recordSize)
    ensures ReadRecord(w, m) == ReadRecord(v, m)
  {
    hide Splice, Volume.Slot, ApplyFixups;
    SlotsApart(v, n, m);
    var data: seq<Byte> :| PutThere(v, w, n, data);
    SameSlot(v, w, m);
    if v.disk.CanRead(v.Slot(m), v.recordSize) {
      SpliceOutside(v.disk.bytes, v.Slot(n), data, v.Slot(m), v.Slot(m) + v.recordSize);
    }
  }

  /** The signature of a record is not touched by its fixups. */
  lemma SignatureKept(record: seq<Byte>, sector: nat)
    requires FixupsSafe(record, sector) && ReapplyFixups(record, sector).Success?
    ensures ReapplyFixups(record, sector).value[0..4] == record[0..4]
  {
    hide UsaOffset, UsaCount, SaveTails;
    var uso, usc := UsaOffset(record), UsaCount(record);
    if Protected(record, sector) && usc > 1 {
      SaveKeeps(record, sector, record[uso..uso + 2], uso + 2, sector - 2, usc - 1, 0, 4);
    }
  }

  /** The bytes of the fixup array that writing may change. */
  ghost function SlotsEnd(record: seq<Byte>): nat
    requires |record| >= 8
  {
    UsaOffset(record) + 2 * UsaCount(record)
  }

  /** A record put on disk is read back up to its fixup slots. */
  lemma PutThenRead(v: Volume, n: nat, record: seq<Byte>)
    requires |record| == v.recordSize >= 8 && record[0..4] == FILE_SIGNATURE
    requires FixupsSafe(record, v.sector) && v.disk.readable(v.Slot(n), v.recordSize)
    ensures var (r, w) := PutRecord(v, n, record);
      r.Success? ==>
        && OnlySlot(v, w, n) && ReadRecord(w, n).Success?
        && (if Protected(record, v.sector)
            then SameOutside(record, ReadRecord(w, n).value, UsaOffset(record) + 2, SlotsEnd(record))
            else ReadRecord(w, n).value == record)
  {
    hide Splice, Volume.Slot, ApplyFixups, ReapplyFixups, SameOutside, UsaOffset, UsaCount, Protected, Unprotected;
    var (r, w) := PutRecord(v, n, record);
    if r.Success? {
      var data := ReapplyFixups(record, v.sector).value;
      ReapplyLength(record, v.sector);
      assert PutThere(v, w, n, data);
      SameSlot(v, w, n);
      SignatureKept(record, v.sector);
      ReapplyThenApply(record, v.sector);
      SpliceInside(v.disk.bytes, v.Slot(n), data);
    }
  }

  lemma ReapplyLength(record: seq<Byte>, sector: nat)
    ensures ReapplyFixups(record, sector).Success? ==> |ReapplyFixups(record, sector).value| == |record|
  {
  }

  // ----- Directories on disk

  /** A directory's record on disk: a good index, fixups clear of the attributes, metadata readable. */
  ghost predicate GoodRecord(record: seq<Byte>, v: Volume) {
    && GoodDirectory(record) && record[0..4] == FILE_SIGNATURE
    && FixupsSafe(record, v.sector) && (Unprotected(record) || SlotsEnd(record) <= FirstOffset(record))
    && StatOf(record, v.clusterSize).Success?
  }

  ghost predicate GoodParent(v: Volume, parent: nat) {
    ReadRecord(v, parent).Success? && GoodRecord(ReadRecord(v, parent).value, v)
  }

  /** The parent has no index outside its record. */
  ghost predicate SmallParent(v: Volume, parent: nat)
    requires GoodParent(v, parent)
  {
    Small(ReadRecord(v, parent).value)
  }

  /** A name is not handed over to an external index: there is none, or the index in the record has room. */
  ghost predicate InPlace(v: Volume, parent: nat, name: string)
    requires GoodParent(v, parent)
  {
    SmallParent(v, parent) || HasRoom(ReadRecord(v, parent).value, Utf16(name))
  }

  ghost function ParentEntries(v: Volume, parent: nat): seq<DirEntry>
    requires GoodParent(v, parent)
  {
    DirEntries(ReadRecord(v, parent).value)
  }

  /** Both directory readers see exactly the entries of the well-formed index. */
  lemma ReadersAgree(v: Volume, parent: nat)
    requires GoodParent(v, parent)
    ensures DirectoryEntries(v, parent) == Success(ParentEntries(v, parent))
  {
    hide ReadRecord, DirAttributes, StatFrom, Entries, Value;
    var record := ReadRecord(v, parent).value;
    var s := AttributeList(record);
    SpanHeader(s);
    StatEdited(s, IndexValue(s), NO_STAT, v.clusterSize);
  }

  /** Two records that agree from the attributes on are the same directory. */
  lemma SameDirectory(a: seq<Byte>, b: seq<Byte>, v: Volume)
    requires GoodRecord(a, v) && |a| == |b|
    requires b[0..4] == a[0..4] && FirstOffset(b) == FirstOffset(a)
    requires UsaOffset(b) == UsaOffset(a) && UsaCount(b) == UsaCount(a)
    requires b[FirstOffset(a)..] == a[FirstOffset(a)..]
    ensures GoodRecord(b, v) && DirEntries(b) == DirEntries(a) && AttributeList(b) == AttributeList(a)
  {
    hide Value, DirAttributes, Apart, StatFrom, Entries, IndexValue, FirstOffset, UsaOffset, UsaCount;
  }

  /** Writing a good directory's record keeps it good, with the same names. */
  lemma PutDirectory(v: Volume, n: nat, record: seq<Byte>)
    requires GoodRecord(record, v) && |record| == v.recordSize
    requires v.disk.readable(v.Slot(n), v.recordSize)
    ensures var (r, w) := PutRecord(v, n, record);
      r.Success? ==>
        && OnlySlot(v, w, n) && GoodParent(w, n) && ParentEntries(w, n) == DirEntries(record)
        && AttributeList(ReadRecord(w, n).value) == AttributeList(record)
  {
    hide Value, DirAttributes, Apart, StatFrom, Entries, IndexValue, FirstOffset, UsaOffset, UsaCount, Volume.Slot,
         PutRecord, SameOutside, OnlySlot, ReadRecord;
    PutThenRead(v, n, record);
    var (r, w) := PutRecord(v, n, record);
    if r.Success? {
      PutKeepsVolume(v, n, record);
      var back := ReadRecord(w, n).value;
      if Protected(record, v.sector) {
        AgreeFrom(record, back, UsaOffset(record) + 2, SlotsEnd(record), FirstOffset(record));
      }
      SameDirectory(record, back, w);
    }
  }

  lemma PutKeepsVolume(v: Volume, n: nat, record: seq<Byte>)
    ensures var w := PutRecord(v, n, record).1;
      && w.sector == v.sector && w.clusterSize == v.clusterSize && w.recordSize == v.recordSize
      && w.mftOffset == v.mftOffset && w.disk.readable == v.disk.readable
  {
  }

  lemma AgreeFrom(a: seq<Byte>, b: seq<Byte>, lo: nat, hi: nat, first: nat)
    requires SameOutside(a, b, lo, hi) && 22 <= lo <= hi <= first <= |a|
    ensures FirstOffset(b) == FirstOffset(a) && b[first..] == a[first..] && b[0..4] == a[0..4]
    ensures UsaOffset(b) == UsaOffset(a) && UsaCount(b) == UsaCount(a)
  {
    SameRest(a, b, lo, hi);
    assert a[first..] == a[hi..][first - hi..] && b[first..] == b[hi..][first - hi..];
  }

  // ----- One creation

  /** What a name adds to a directory: nothing if it is empty, as the readers skip such a key. */
  ghost function NewEntries(n: nat, name: string): seq<DirEntry> {
    if name == "" then [] else [DirEntry(n, ReadBack(name))]
  }

  lemma {:induction false} Utf16Empty(name: string)
    ensures Utf16(name) == [] <==> name == ""
  {
  }

  /** Adding a name to a good parent, when it succeeds. */
  lemma {:induction false} AddToParent(v: Volume, parent: U64, n: U64, name: string)
    requires GoodParent(v, parent) && |Utf16(name)| <= 255 && InPlace(v, parent, name)
    requires v.disk.readable(v.Slot(parent), v.recordSize)
    ensures var (r, w) := AddDirectoryEntry(v, parent, n, name);
      r.Success? ==>
        && OnlySlot(v, w, parent) && GoodParent(w, parent) && SmallParent(w, parent) == SmallParent(v, parent)
        && ParentEntries(w, parent) == ParentEntries(v, parent) + NewEntries(n, name)
        && Stat(w, parent) == SetIndex(Stat(v, parent), IndexOfParent(w, parent))
  {
    hide Value, DirAttributes, StatFrom, Entries, IndexValue, FirstOffset, UsaOffset, UsaCount, Apart, Volume.Slot,
         OnlySlot, ReadRecord, PutRecord, AddEntry, EntryBytes, Utf16, Added, FindAttribute, GoodEntry, EntryAt,
         GoodIndex, TotalSize, AllocatedSize, Inserted, WithIndex, Small, AddExternal;
    var record, e := ReadRecord(v, parent).value, EntryBytes(n, parent, Utf16(name));
    NewEntryGood(n, parent, Utf16(name));
    Utf16Empty(name);
    AddedInPlace(v, parent, n, name);
    AddEntryGood(record, e);
    GoodIndexSizes(IndexValue(AttributeList(record)));
    if AddEntry(record, e).Success? {
      EditedGood(v, record, e);
      ReadLength(v, parent);
      PutDirectory(v, parent, Added(record, e));
      PutKeepsVolume(v, parent, Added(record, e));
      var (r, w) := AddDirectoryEntry(v, parent, n, name);
      if r.Success? {
        StatByList(record, Added(record, e), ReadRecord(w, parent).value, e, v.clusterSize);
        StaysSmall(record, ReadRecord(w, parent).value, NewIndex(record, e));
      }
    }
  }

  /** Adding a name in place: the record is edited and written, or nothing happens. */
  lemma {:induction false} AddedInPlace(v: Volume, parent: nat, n: nat, name: string)
    requires GoodParent(v, parent) && InPlace(v, parent, name)
    ensures var edited := AddEntry(ReadRecord(v, parent).value, EntryBytes(n, parent, Utf16(name)));
      AddDirectoryEntry(v, parent, n, name) ==
      if edited.Failure? then (Failure(edited.error), v) else PutRecord(v, parent, edited.value)
  {
    hide Value, DirAttributes, StatFrom, Entries, IndexValue, FirstOffset, UsaOffset, UsaCount, Apart, ReadRecord,
         PutRecord, AddEntry, EntryBytes, Utf16, FindAttribute, GoodIndex, TotalSize, AllocatedSize, AddExternal;
    AddEntryGood(ReadRecord(v, parent).value, EntryBytes(n, parent, Utf16(name)));
  }

  lemma StaysSmall(record: seq<Byte>, back: seq<Byte>, v: seq<Byte>)
    requires GoodDirectory(record) && GoodDirectory(back) && |v| == |IndexValue(AttributeList(record))|
    requires AttributeList(back) == WithIndex(AttributeList(record), v)
    ensures Small(back) == Small(record)
  {
    hide DirAttributes, IndexValue, WithIndex, FirstOffset, FindFrom, Small;
    SmallByList(record);
    SmallByList(back);
    FindsSame(AttributeList(record), v, INDEX_ALLOCATION);
  }

  lemma ReadLength(v: Volume, n: nat)
    ensures ReadRecord(v, n).Success? ==> |ReadRecord(v, n).value| == v.recordSize
  {
  }

  ghost function IndexOfParent(v: Volume, parent: nat): Option<seq<Byte>>
    requires GoodParent(v, parent)
  {
    Some(IndexValue(AttributeList(ReadRecord(v, parent).value)))
  }

  lemma EditedGood(v: Volume, record: seq<Byte>, e: seq<Byte>)
    requires GoodRecord(record, v) && GoodEntry(e)
    requires GoodIndex(IndexValue(AttributeList(record)))
    requires TotalSize(IndexValue(AttributeList(record))) + |e| <= AllocatedSize(IndexValue(AttributeList(record)))
    ensures var edited := Added(record, e);
      && |edited| == |record| && GoodRecord(edited, v) && DirEntries(edited) == DirEntries(record) + EntryAt(e, 0)
      && |NewIndex(record, e)| == |IndexValue(AttributeList(record))|
      && GoodIndex(NewIndex(record, e))
      && AttributeList(edited) == WithIndex(AttributeList(record), NewIndex(record, e))
  {
    hide Value, DirAttributes, StatFrom, Entries, IndexValue, FirstOffset, UsaOffset, UsaCount, Apart, Added, GoodEntry,
         EntryAt, GoodIndex, TotalSize, AllocatedSize, Inserted, WithIndex;
    AddedIsGood(record, e);
    GoodIndexSizes(IndexValue(AttributeList(record)));
    var edited := Added(record, e);
    assert edited[0..4] == edited[..24][0..4] && record[0..4] == record[..24][0..4];
    assert edited[4..8] == edited[..24][4..8] && record[4..8] == record[..24][4..8];
    SameDescription(record, edited);
    StatEdited(AttributeList(record), NewIndex(record, e), NO_STAT, v.clusterSize);
  }

  /** The metadata after the edit is the old one with the new index. */
  lemma StatByList(record: seq<Byte>, edited: seq<Byte>, back: seq<Byte>, e: seq<Byte>, cs: nat)
    requires GoodDirectory(record) && GoodDirectory(edited) && GoodDirectory(back)
    requires |NewIndex(record, e)| == |IndexValue(AttributeList(record))| && GoodIndex(NewIndex(record, e))
    requires AttributeList(edited) == WithIndex(AttributeList(record), NewIndex(record, e))
    requires AttributeList(back) == AttributeList(edited)
    ensures StatOf(back, cs) == SetIndex(StatOf(record, cs), Some(IndexValue(AttributeList(back))))
  {
    hide Value, DirAttributes, StatFrom, FirstOffset, GoodIndex, IndexSpan, NewIndex, Splice;
    var s, x := AttributeList(record), NewIndex(record, e);
    StatEdited(s, x, NO_STAT, cs);
    StaysDirectory(s, x);
    WithIndexValue(s, x);
  }

  /** The index value after an insertion, where there is room for it. */
  ghost function NewIndex(record: seq<Byte>, e: seq<Byte>): seq<Byte>
    requires GoodDirectory(record)
  {
    var v := IndexValue(AttributeList(record));
    if |v| >= 32 && TotalSize(v) + |e| + 16 <= |v| then Inserted(v, e) else []
  }

  /** A new record in its slot. */
  lemma PutNewRecord(v: Volume, n: nat, name: string, parent: U64, isDirectory: bool, data: seq<Byte>)
    requires BuildRecord(v.recordSize, n, name, parent, isDirectory, data).Success? && SectorFits(v.sector)
    requires v.disk.readable(v.Slot(n), v.recordSize)
    ensures var (r, w) := PutRecord(v, n, BuildRecord(v.recordSize, n, name, parent, isDirectory, data).value);
      r.Success? ==>
        && OnlySlot(v, w, n)
        && ReadRecord(w, n).Success?
        && SameOutside(BuildRecord(v.recordSize, n, name, parent, isDirectory, data).value,
                       ReadRecord(w, n).value, 50, 54)
        && Stat(w, n) == Success(NewStat(v.recordSize, name, isDirectory, data))
  {
    hide Value, AttributesOf, UsaOffset, UsaCount, FirstOffset, Utf16, BuildRecord, StatOf, SameOutside, Protected,
         Volume.Slot, OnlySlot, ReadRecord, PutRecord;
    BuiltParts(v.recordSize, n, name, parent, isDirectory, data);
    var b := BuildRecord(v.recordSize, n, name, parent, isDirectory, data).value;
    BuiltLength(v.recordSize, n, name, parent, isDirectory, data);
    BuiltFixups(b, v.sector);
    PutThenRead(v, n, b);
    PutKeepsVolume(v, n, b);
    var (r, w) := PutRecord(v, n, b);
    if r.Success? {
      StatOfBuilt(v.recordSize, n, name, parent, isDirectory, data, ReadRecord(w, n).value, v.clusterSize);
    }
  }

  lemma BuiltLength(recordSize: nat, n: nat, name: string, parent: nat, isDirectory: bool, data: seq<Byte>)
    ensures var b := BuildRecord(recordSize, n, name, parent, isDirectory, data);
      b.Success? ==> |b.value| == recordSize >= 60
  {
  }

  /** `w` differs from `v` at most in two records' slots. */
  ghost predicate OnlySlots(v: Volume, w: Volume, n: nat, m: nat) {
    exists u: Volume :: OnlySlot(v, u, n) && OnlySlot(u, w, m)
  }

  lemma OtherSlots(v: Volume, w: Volume, n: nat, m: nat, k: nat)
    requires OnlySlots(v, w, n, m) && k != n && k != m
    ensures ReadRecord(w, k) == ReadRecord(v, k)
    ensures w.disk.Read(w.Slot(k), w.recordSize) == v.disk.Read(v.Slot(k), v.recordSize)
  {
    hide OnlySlot, ReadRecord, Volume.Slot;
    var u: Volume :| OnlySlot(v, u, n) && OnlySlot(u, w, m);
    OtherSlot(v, u, n, k);
    OtherSlot(u, w, m, k);
  }

  /** A readable record is not free, and both a free slot and a readable record can be read. */
  lemma FreeOrUsed(v: Volume, n: nat)
    ensures IsFree(v, n) ==> v.disk.readable(v.Slot(n), v.recordSize) && ReadRecord(v, n).Failure?
    ensures ReadRecord(v, n).Success? ==> v.disk.readable(v.Slot(n), v.recordSize)
  {
  }

  /** What preparing a creation has established. */
  lemma {:induction false} Prepared(v: Volume, parent: nat, name: string, isDirectory: bool, data: seq<Byte>)
    requires GoodParent(v, parent)
    ensures var r := Prepare(v, parent, name, isDirectory, data);
      r.Success? ==>
        && START_SCAN <= r.value.0 < MAX_SCAN && IsFree(v, r.value.0) && |Utf16(name)| <= 255
        && BuildRecord(v.recordSize, r.value.0, name, parent, isDirectory, data) == Success(r.value.1)
        && Lookup(ParentEntries(v, parent), name) == Failure(FileNotFound)
  {
    hide IsFree, BuildRecord, Utf16, Utf8Length, IsDirectory, DirectoryEntries, Lookup, GoodParent;
    ReadersAgree(v, parent);
    Utf16NoLongerThanUtf8(name);
    AllocatedFree(v);
  }

  lemma {:induction false} AllocatedFree(v: Volume)
    ensures var r := AllocateFrom(v, START_SCAN);
      r.Success? ==> START_SCAN <= r.value < MAX_SCAN && IsFree(v, r.value)
  {
  }

  /** The meaning of a successful creation, for every name and every data. */
  ghost predicate Created(v: Volume, w: Volume, parent: nat, n: nat, name: string, isDirectory: bool, data: seq<Byte>)
    requires GoodParent(v, parent)
  {
    // the slot was free, so nothing in use is overwritten; no third record changes
    && START_SCAN <= n < MAX_SCAN && n != parent && IsFree(v, n)
    && OnlySlots(v, w, n, parent)
    // the parent is again a good directory, and lists the old names and then the new one
    && GoodParent(w, parent)
    && ParentEntries(w, parent) == ParentEntries(v, parent) + NewEntries(n, name)
    && SmallParent(w, parent) == SmallParent(v, parent)
    && Stat(w, parent) == SetIndex(Stat(v, parent), IndexOfParent(w, parent))
    // the new record is on disk, and holds the name and the data
    && BuildRecord(v.recordSize, n, name, parent, isDirectory, data).Success? && ReadRecord(w, n).Success?
    && SameOutside(BuildRecord(v.recordSize, n, name, parent, isDirectory, data).value, ReadRecord(w, n).value, 50, 54)
    && Stat(w, n) == Success(NewStat(v.recordSize, name, isDirectory, data))
    // and the driver sees the same geometry
    && w.recordSize == v.recordSize && w.sector == v.sector && w.clusterSize == v.clusterSize
  }

  /** A creation in a good directory that reports success has happened, unless the name went to an external
      index. */
  lemma {:induction false} CreateFileCorrect(v: Volume, parent: U64, name: string, isDirectory: bool, data: seq<Byte>)
    requires GoodParent(v, parent) && SectorFits(v.sector) && InPlace(v, parent, name)
    ensures var (r, w) := CreateFile(v, parent, name, isDirectory, data);
      r.Success? ==>
        && Created(v, w, parent, r.value, name, isDirectory, data)
        && Lookup(ParentEntries(v, parent), name) == Failure(FileNotFound)
  {
    hide GoodParent, OnlySlot, OnlySlots, IsFree, BuildRecord, PutRecord, AddDirectoryEntry, ReadRecord, StatOf,
         Prepare, Volume.Slot, ParentEntries, Lookup, NewEntries, NewStat, Stat, IndexOfParent, SameOutside, Utf16;
    var p := Prepare(v, parent, name, isDirectory, data);
    Prepared(v, parent, name, isDirectory, data);
    if p.Success? {
      var (n, record) := p.value;
      var (put, v1) := PutRecord(v, n, record);
      FreeOrUsed(v, n);
      ParentReadable(v, parent);
      FreeOrUsed(v, parent);
      PutNewRecord(v, n, name, parent, isDirectory, data);
      if put.Success? {
        PutKeepsVolume(v, n, record);
        ParentSurvives(v, v1, n, parent);
        SameSlot(v, v1, parent);
        AddToParent(v1, parent, n, name);
        var (added, w) := AddDirectoryEntry(v1, parent, n, name);
        if added.Success? {
          TwoSlots(v, v1, w, n, parent);
          OtherSlot(v1, w, parent, n);
          StatSame(v1, w, n);
        }
      }
    }
  }

  lemma ParentReadable(v: Volume, parent: nat)
    requires GoodParent(v, parent)
    ensures ReadRecord(v, parent).Success?
  {
  }

  lemma TwoSlots(v: Volume, u: Volume, w: Volume, n: nat, m: nat)
    requires OnlySlot(v, u, n) && OnlySlot(u, w, m)
    ensures OnlySlots(v, w, n, m)
    ensures w.clusterSize == u.clusterSize == v.clusterSize && w.sector == v.sector && w.recordSize == v.recordSize
  {
  }

  lemma StatSame(v: Volume, w: Volume, n: nat)
    requires ReadRecord(w, n) == ReadRecord(v, n) && w.clusterSize == v.clusterSize
    ensures Stat(w, n) == Stat(v, n)
  {
  }

  /** Writing another slot leaves a good directory as it was. */
  lemma ParentSurvives(v: Volume, w: Volume, n: nat, parent: nat)
    requires OnlySlot(v, w, n) && n != parent && GoodParent(v, parent)
    ensures GoodParent(w, parent) && ParentEntries(w, parent) == ParentEntries(v, parent)
    ensures Stat(w, parent) == Stat(v, parent)
    ensures IndexOfParent(w, parent) == IndexOfParent(v, parent)
    ensures SmallParent(w, parent) == SmallParent(v, parent)
    ensures forall name :: InPlace(w, parent, name) == InPlace(v, parent, name)
  {
    hide Small, HasRoom, ReadRecord, StatOf, Protected, Unprotected, GoodDirectory, Volume.Slot, Splice;
    OtherSlot(v, w, n, parent);
  }

  // ----- What a caller can rely on

  /** Looking a name up after a creation: earlier answers stay, and otherwise the new name answers to
      anything that equals it up to letter case. */
  lemma FindAfterCreate(v: Volume, w: Volume, parent: nat, n: nat, name: string, isDirectory: bool, data: seq<Byte>,
                        wanted: string)
    requires GoodParent(v, parent) && Created(v, w, parent, n, name, isDirectory, data)
    ensures Find(w, parent, wanted) ==
            if Find(v, parent, wanted).Success? then Find(v, parent, wanted)
            else if name != "" && SameName(ReadBack(name), wanted) then Success(n)
            else Failure(FileNotFound)
  {
    hide GoodParent, OnlySlots, IsFree, BuildRecord, ReadRecord, Stat, ParentEntries, SameOutside, DirectoryEntries,
         SameName, ReadBack, IndexOfParent, NewStat, SmallParent;
    ReadersAgree(v, parent);
    ReadersAgree(w, parent);
    LookupAppend(ParentEntries(v, parent), NewEntries(n, name), wanted);
    LookupFails(ParentEntries(v, parent), wanted);
    if name != "" {
      assert NewEntries(n, name)[1..] == [];
    }
  }

  lemma {:induction false} LookupFails(es: seq<DirEntry>, name: string)
    ensures Lookup(es, name).Failure? ==> Lookup(es, name) == Failure(FileNotFound)
  {
    if es != [] {
      LookupFails(es[1..], name);
    }
  }

  lemma SameNameItself(name: string)
    ensures SameName(name, name)
  {
  }

  /** A name of non-NUL ASCII characters: it is found with the new record number and listed last, the
      record reads back the name, and a file reads back its data. */
  lemma {:induction false} CreateThenUse(v: Volume, w: Volume, parent: nat, n: nat, name: string, isDirectory: bool,
                                         data: seq<Byte>)
    requires GoodParent(v, parent) && Created(v, w, parent, n, name, isDirectory, data)
    requires Lookup(ParentEntries(v, parent), name) == Failure(FileNotFound)
    requires IsAscii(name) && name != ""
    ensures Find(w, parent, name) == Success(n)
    ensures List(v, parent).Success? && List(w, parent) == Success(List(v, parent).value + [name])
    ensures Stat(w, n).Success? && Stat(w, n).value.name == Some(name)
    ensures !isDirectory ==> ReadFileAll(w, n) == Success(data)
  {
    hide GoodParent, OnlySlots, IsFree, BuildRecord, ReadRecord, Stat, ParentEntries, SameOutside, DirectoryEntries,
         SameName, ReadBack, IndexOfParent, Names;
    ReadersAgree(v, parent);
    ReadersAgree(w, parent);
    ReadBackExact(name);
    SameNameItself(name);
    FindAfterCreate(v, w, parent, n, name, isDirectory, data, name);
    NamesAppend(ParentEntries(v, parent), NewEntries(n, name));
    NamesOfOne(DirEntry(n, name));
    OneRun(w, data);
  }

  lemma NamesOfOne(e: DirEntry)
    ensures Names([e]) == [e.name]
  {
  }

  lemma {:induction false} OneRun(v: Volume, data: seq<Byte>)
    ensures Contents(v, [Resident(data)]) == Success(data)
  {
    assert [Resident(data)][1..] == [] && data + [] == data;
  }

  // ----- Sequences of creations

  datatype Request = Request(name: string, isDirectory: bool, data: seq<Byte>)

  /** Creations in one directory, one after another, up to the first that fails. */
  function CreateAll(v: Volume, parent: nat, rs: seq<Request>): (Outcome<seq<nat>>, Volume)
    decreases |rs|
  {
    if rs == [] then (Success([]), v)
    else
      var (r, u) := CreateFile(v, parent, rs[0].name, rs[0].isDirectory, rs[0].data);
      if r.Failure? then (Failure(r.error), u)
      else
        var (ns, w) := CreateAll(u, parent, rs[1..]);
        (if ns.Success? then Success([r.value] + ns.value) else ns, w)
  }

  /** The record `n` of the volume is in use for the request, and its name leads to it. */
  ghost predicate Present(v: Volume, parent: nat, q: Request, n: nat) {
    && ReadRecord(v, n).Success? && n != parent
    && Stat(v, n) == Success(NewStat(v.recordSize, q.name, q.isDirectory, q.data))
    && (IsAscii(q.name) && q.name != "" ==> Find(v, parent, q.name) == Success(n))
  }

  /** What is present stays present through another creation. */
  lemma PresentStays(v: Volume, w: Volume, parent: nat, n: nat, q: Request, m: nat, p: Request)
    requires GoodParent(v, parent) && Created(v, w, parent, n, q.name, q.isDirectory, q.data)
    requires Present(v, parent, p, m)
    ensures Present(w, parent, p, m) && m != n
  {
    hide GoodParent, OnlySlots, BuildRecord, ReadRecord, StatOf, ParentEntries, SameOutside, Find, IsFree, NewStat;
    FreeOrUsed(v, n);
    OtherSlots(v, w, n, parent, m);
    StatSame(v, w, m);
    FindAfterCreate(v, w, parent, n, q.name, q.isDirectory, q.data, p.name);
  }

  /** After any sequence of creations that all succeed: every name leads to its own record, every
      record still has the name and data it was created with, no two share a record, and what was
      there before is still there. */
  lemma {:induction false} CreateAllCorrect(v: Volume, parent: U64, rs: seq<Request>)
    requires GoodParent(v, parent) && SectorFits(v.sector) && SmallParent(v, parent)
    ensures var (ns, w) := CreateAll(v, parent, rs);
      ns.Success? ==>
        && |ns.value| == |rs| && GoodParent(w, parent)
        && (forall i | 0 <= i < |rs| :: Present(w, parent, rs[i], ns.value[i]))
        && (forall i, j | 0 <= i < j < |rs| :: ns.value[i] != ns.value[j])
        && (forall q, m | Present(v, parent, q, m) :: Present(w, parent, q, m) && m !in ns.value)
    decreases |rs|
  {
    hide GoodParent, CreateFile, Created, Present;
    if rs != [] {
      var q := rs[0];
      var (r, u) := CreateFile(v, parent, q.name, q.isDirectory, q.data);
      CreateFileCorrect(v, parent, q.name, q.isDirectory, q.data);
      if r.Success? {
        CreatedPresent(v, u, parent, r.value, q);
        CreateAllCorrect(u, parent, rs[1..]);
        forall p, m | Present(v, parent, p, m)
          ensures Present(u, parent, p, m) && m != r.value
        {
          PresentStays(v, u, parent, r.value, q, m, p);
        }
      }
    }
  }

  lemma CreatedPresent(v: Volume, w: Volume, parent: nat, n: nat, q: Request)
    requires GoodParent(v, parent) && Created(v, w, parent, n, q.name, q.isDirectory, q.data)
    requires Lookup(ParentEntries(v, parent), q.name) == Failure(FileNotFound)
    ensures Present(w, parent, q, n) && GoodParent(w, parent) && w.sector == v.sector
    ensures SmallParent(w, parent) == SmallParent(v, parent)
  {
    hide GoodParent, OnlySlots, BuildRecord, ReadRecord, StatOf, ParentEntries, SameOutside, Find, IsFree, NewStat;
    if IsAscii(q.name) && q.name != "" {
      CreateThenUse(v, w, parent, n, q.name, q.isDirectory, q.data);
    }
  }

  // ----- A directory that was just created

  /** Creating anything in a directory the driver itself built never succeeds. If it fails only at the
      directory entry, the new record stays on disk, complete but unreachable by name. */
  lemma FreshDirectoryRejects(v: Volume, d: nat, dirNum: nat, dirName: string, dirParent: nat, name: string,
                              isDirectory: bool, data: seq<Byte>)
    requires BuildRecord(v.recordSize, dirNum, dirName, dirParent, true, []).Success? && ReadRecord(v, d).Success?
    requires SameOutside(BuildRecord(v.recordSize, dirNum, dirName, dirParent, true, []).value,
                         ReadRecord(v, d).value, 50, 54)
    ensures CreateFile(v, d, name, isDirectory, data).0.Failure?
  {
    hide BuildRecord, ReadRecord, PutRecord, AddEntry, SameOutside, Prepare, IsFree, EntryBytes, FindAttribute;
    var p := Prepare(v, d, name, isDirectory, data);
    if p.Success? {
      var (n, record) := p.value;
      PreparedFree(v, d, name, isDirectory, data);
      FreeOrUsed(v, n);
      var (put, v1) := PutRecord(v, n, record);
      if put.Success? {
        PutOnlySlot(v, n, record);
        OtherSlot(v, v1, n, d);
        EntryNotEmpty(n, d, Utf16(name));
        FreshDirectoryFull(v.recordSize, dirNum, dirName, dirParent, ReadRecord(v, d).value,
                           EntryBytes(n, d, Utf16(name)));
      }
    }
  }

  lemma EntryNotEmpty(child: nat, parent: nat, units: seq<U16>)
    ensures |EntryBytes(child, parent, units)| > 0
  {
  }

  lemma PreparedFree(v: Volume, parent: nat, name: string, isDirectory: bool, data: seq<Byte>)
    ensures var r := Prepare(v, parent, name, isDirectory, data);
      r.Success? ==>
        && IsFree(v, r.value.0) && |r.value.1| == v.recordSize
        && BuildRecord(v.recordSize, r.value.0, name, parent, isDirectory, data) == Success(r.value.1)
  {
    hide IsFree, IsDirectory, Find, Utf8Length;
    AllocatedFree(v);
  }

  lemma PutOnlySlot(v: Volume, n: nat, record: seq<Byte>)
    requires |record| == v.recordSize
    ensures var (r, w) := PutRecord(v, n, record); r.Success? ==> OnlySlot(v, w, n)
  {
    hide ReapplyFixups, Splice, Volume.Slot;
    ReapplyLength(record, v.sector);
    var (r, w) := PutRecord(v, n, record);
    if r.Success? {
      assert PutThere(v, w, n, ReapplyFixups(record, v.sector).value);
    }
  }
}
