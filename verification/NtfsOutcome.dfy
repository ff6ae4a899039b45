/** Exactly when a creation succeeds, and exactly what a failed one leaves behind. */
module NtfsOutcome {
  import opened Wrappers
  import opened Bytes
  import opened NtfsTypes
  import opened NtfsFixups
  import opened NtfsAttributes
  import opened NtfsIndex
  import opened NtfsInsert
  import opened NtfsDirectory
  import opened NtfsBuild
  import opened NtfsBuiltRecord
  import opened NtfsVolume
  import opened NtfsCreate
  import opened NtfsOpen
  import opened NtfsOverflow

  // ----- When fixups can be made

  /** The sectors that the array counts lie inside the record. */
  predicate Refixable(record: seq<Byte>, sector: nat) {
    && |record| >= 8
    && (UsaOffset(record) < 48 || UsaCount(record) <= 1 || (UsaCount(record) - 1) * sector <= |record|)
  }

  lemma RefixedIff(record: seq<Byte>, sector: nat)
    requires FixupsSafe(record, sector)
    ensures ReapplyFixups(record, sector).Success? <==> Refixable(record, sector)
  {
    hide UsaOffset, UsaCount, SaveTails, Apart;
    var uso, usc := UsaOffset(record), UsaCount(record);
    if Protected(record, sector) && usc > 1 {
      SaveSucceedsIff(record, sector, record[uso..uso + 2], uso + 2, sector - 2, usc - 1);
      assert sector - 2 + (usc - 2) * sector + 2 == (usc - 1) * sector;
    }
  }

  // ----- What decides a creation, before it is made

  /** Whether the record of a new file or directory fits. */
  predicate RecordFits(recordSize: nat, name: string, isDirectory: bool, data: seq<Byte>) {
    && |Utf16(name)| <= 255 && (isDirectory || |data| <= 700)
    && 156 + Align8(90 + 2 * |Utf16(name)|) + (if isDirectory then 72 else Align8(24 + |data|)) <= recordSize
  }

  /** A record is built exactly when it fits with its end mark. */
  lemma BuildSucceedsIff(recordSize: nat, num: nat, name: string, parent: nat, isDirectory: bool, data: seq<Byte>)
    ensures BuildRecord(recordSize, num, name, parent, isDirectory, data).Success? <==>
            RecordFits(recordSize, name, isDirectory, data)
  {
    hide Utf16, LE, StandardInfoValue, IndexRootValue, KeyBytes, RecordHead;
  }

  /** The name is new and short enough, a slot is free, and the record fits. */
  ghost predicate Preparable(v: Volume, parent: nat, name: string, isDirectory: bool, data: seq<Byte>)
    requires GoodParent(v, parent)
  {
    && Lookup(ParentEntries(v, parent), name).Failure? && Utf8Length(name) <= 255
    && (exists n | 16 <= n < 100000 :: IsFree(v, n))
    && RecordFits(v.recordSize, name, isDirectory, data)
  }

  /** The first free slot. */
  ghost function FirstFree(v: Volume): nat {
    var n := AllocateFrom(v, START_SCAN);
    if n.Success? then n.value else 0
  }

  /** Two sectors fit into a record, and the free slot can be written. */
  ghost predicate Storable(v: Volume) {
    2 * v.sector <= v.recordSize && v.disk.writable(v.Slot(FirstFree(v)), v.recordSize)
  }

  /** The parent's index and used size have room for the name, its fixups can be made, and its slot can be
      written. */
  ghost predicate Listable(v: Volume, parent: nat, name: string)
    requires GoodParent(v, parent)
  {
    var record := ReadRecord(v, parent).value;
    var index := IndexValue(AttributeList(record));
    && GoodIndex(index)
    && TotalSize(index) + EntrySize(Utf16(name)) <= AllocatedSize(index)
    && ReadU32(record, 24) + EntrySize(Utf16(name)) < 0x1_0000_0000
    && Refixable(record, v.sector) && v.disk.writable(v.Slot(parent), v.recordSize)
  }

  // ----- Each of the three parts

  lemma PreparedIff(v: Volume, parent: nat, name: string, isDirectory: bool, data: seq<Byte>)
    requires GoodParent(v, parent)
    ensures var r := Prepare(v, parent, name, isDirectory, data);
      && (r.Success? <==> Preparable(v, parent, name, isDirectory, data))
      && (r.Success? ==>
            && r.value.0 == FirstFree(v) && START_SCAN <= FirstFree(v) < MAX_SCAN && IsFree(v, FirstFree(v))
            && BuildRecord(v.recordSize, FirstFree(v), name, parent, isDirectory, data) == Success(r.value.1))
  {
    hide IsFree, BuildRecord, Utf16, Utf8Length, DirectoryEntries, Lookup, GoodParent, Stat, RecordFits, AllocateFrom;
    ReadersAgree(v, parent);
    ParentIsDirectory(v, parent);
    LookupFails(ParentEntries(v, parent), name);
    AllocatedIff(v);
    BuildSucceedsIff(v.recordSize, FirstFree(v), name, parent, isDirectory, data);
  }

  lemma {:induction false} AllocatedIff(v: Volume)
    ensures var r := AllocateFrom(v, START_SCAN);
      && (r.Success? <==> exists n | START_SCAN <= n < MAX_SCAN :: IsFree(v, n))
      && (r.Success? ==> START_SCAN <= r.value < MAX_SCAN && IsFree(v, r.value) && r.value == FirstFree(v))
  {
    hide IsFree;
  }

  lemma StoredIff(v: Volume, parent: U64, name: string, isDirectory: bool, data: seq<Byte>)
    requires GoodParent(v, parent) && SectorFits(v.sector) && Prepare(v, parent, name, isDirectory, data).Success?
    ensures var (n, record) := Prepare(v, parent, name, isDirectory, data).value;
      PutRecord(v, n, record).0.Success? <==> Storable(v)
  {
    hide IsFree, BuildRecord, Prepare, UsaOffset, UsaCount, Volume.Slot, ReapplyFixups, AttributesOf, FirstFree;
    PreparedIff(v, parent, name, isDirectory, data);
    var (n, record) := Prepare(v, parent, name, isDirectory, data).value;
    BuiltParts(v.recordSize, n, name, parent, isDirectory, data);
    BuiltLength(v.recordSize, n, name, parent, isDirectory, data);
    BuiltFixups(record, v.sector);
    ReapplyLength(record, v.sector);
    SlotInside(v, n);
  }

  lemma SlotInside(v: Volume, n: nat)
    ensures IsFree(v, n) || ReadRecord(v, n).Success? ==> v.Slot(n) + v.recordSize <= |v.disk.bytes|
  {
    hide ApplyFixups, Volume.Slot;
  }

  lemma {:induction false} ListedIff(v: Volume, parent: U64, n: U64, name: string)
    requires GoodParent(v, parent) && |Utf16(name)| <= 255 && InPlace(v, parent, name)
    ensures AddDirectoryEntry(v, parent, n, name).0.Success? <==> Listable(v, parent, name)
  {
    hide Value, DirAttributes, StatFrom, Entries, IndexValue, FirstOffset, UsaOffset, UsaCount, Apart, Volume.Slot,
         ReadRecord, AddEntry, EntryBytes, Utf16, Added, FindAttribute, GoodEntry, EntryAt, GoodIndex, TotalSize,
         AllocatedSize, Inserted, WithIndex, EntrySize, ReapplyFixups, FixupsSafe, Refixable, AddExternal,
         AddDirectoryEntry, InPlace;
    var record, e := ReadRecord(v, parent).value, EntryBytes(n, parent, Utf16(name));
    NewEntryGood(n, parent, Utf16(name));
    AddedInPlace(v, parent, n, name);
    AddEntryGood(record, e);
    GoodIndexSizes(IndexValue(AttributeList(record)));
    if AddEntry(record, e).Success? {
      var edited := Added(record, e);
      EditedGood(v, record, e);
      EditedRefixable(v, record, e);
      RefixedIff(edited, v.sector);
      ReapplyLength(edited, v.sector);
      ReadLength(v, parent);
      SlotInside(v, parent);
    }
  }

  lemma EditedRefixable(v: Volume, record: seq<Byte>, e: seq<Byte>)
    requires GoodRecord(record, v) && GoodEntry(e)
    requires GoodIndex(IndexValue(AttributeList(record)))
    requires TotalSize(IndexValue(AttributeList(record))) + |e| <= AllocatedSize(IndexValue(AttributeList(record)))
    ensures Refixable(Added(record, e), v.sector) == Refixable(record, v.sector)
    ensures FixupsSafe(Added(record, e), v.sector)
  {
    hide Value, DirAttributes, StatFrom, Entries, IndexValue, FirstOffset, UsaOffset, UsaCount, Apart, Added, GoodEntry,
         EntryAt, GoodIndex, TotalSize, AllocatedSize, Inserted, WithIndex;
    GoodIndexSizes(IndexValue(AttributeList(record)));
    EditedGood(v, record, e);
    AddedIsGood(record, e);
    var edited := Added(record, e);
    assert edited[4..8] == edited[..24][4..8] && record[4..8] == record[..24][4..8];
    SameDescription(record, edited);
  }

  /** Writing another slot changes nothing about the parent. */
  lemma ListableStays(v: Volume, w: Volume, n: nat, parent: nat, name: string)
    requires OnlySlot(v, w, n) && n != parent && GoodParent(v, parent)
    ensures GoodParent(w, parent) && Listable(w, parent, name) == Listable(v, parent, name)
  {
    hide Value, DirAttributes, StatFrom, IndexValue, FirstOffset, UsaOffset, UsaCount, Apart, Volume.Slot, ReadRecord,
         GoodIndex, TotalSize, AllocatedSize, EntrySize, Refixable, AttributeList, GoodRecord, Splice, Utf16;
    ParentSurvives(v, w, n, parent);
    OtherSlot(v, w, n, parent);
    SameSlot(v, w, parent);
  }

  // ----- The whole creation

  /** The parent takes the name: in place, or else in the block of its external index. */
  ghost predicate Taken(v: Volume, parent: nat, name: string)
    requires GoodParent(v, parent)
  {
    if InPlace(v, parent, name) then Listable(v, parent, name)
    else BlockTakes(v, ReadRecord(v, parent).value, EntryBytes(FirstFree(v), parent, Utf16(name)))
  }

  /** A name that goes to the external index goes to a block that does not overlap the new record's slot. */
  ghost predicate Separate(v: Volume, parent: nat, name: string)
    requires GoodParent(v, parent)
  {
    InPlace(v, parent, name) || BlockApart(v, parent, FirstFree(v))
  }

  /** Once the new record is stored, the creation succeeds exactly when the parent takes the name. */
  lemma StoredThenListed(v: Volume, parent: U64, name: string, isDirectory: bool, data: seq<Byte>)
    requires GoodParent(v, parent) && SectorFits(v.sector) && Separate(v, parent, name)
    requires Preparable(v, parent, name, isDirectory, data) && Storable(v)
    ensures CreateFile(v, parent, name, isDirectory, data).0.Success? <==> Taken(v, parent, name)
  {
    hide GoodParent, IsFree, BuildRecord, Prepare, PutRecord, AddDirectoryEntry, ReadRecord, Preparable, Storable,
         Listable, Volume.Slot, FirstFree, Stat, SameOutside, OnlySlot, InPlace, BlockApart, BlockTakes, EntryBytes,
         Utf16;
    PreparedIff(v, parent, name, isDirectory, data);
    StoredIff(v, parent, name, isDirectory, data);
    var (n, record) := Prepare(v, parent, name, isDirectory, data).value;
    var (put, v1) := PutRecord(v, n, record);
    FreeOrUsed(v, n);
    ParentReadable(v, parent);
    PutNewRecord(v, n, name, parent, isDirectory, data);
    ParentSurvives(v, v1, n, parent);
    NameFits(v.recordSize, n, name, parent, isDirectory, data);
    if InPlace(v, parent, name) {
      ListableStays(v, v1, n, parent, name);
      ListedIff(v1, parent, n, name);
      InPlaceKeepsOthers(v1, parent, n, name);
    } else {
      OtherSlot(v, v1, n, parent);
      OnlySlotGeometry(v, v1, n);
      AddedElsewhere(v1, parent, n, name);
      ExternalIff(v1, ReadRecord(v, parent).value, EntryBytes(n, parent, Utf16(name)));
      BlockTakesStays(v, v1, parent, n, EntryBytes(n, parent, Utf16(name)));
      BlockApartStays(v, v1, parent, n);
      ListingKeepsOthers(v1, parent, n, name, n);
    }
  }

  lemma InPlaceKeepsOthers(v: Volume, parent: nat, n: nat, name: string)
    requires GoodParent(v, parent) && InPlace(v, parent, name) && n != parent
    ensures ReadRecord(AddDirectoryEntry(v, parent, n, name).1, n) == ReadRecord(v, n)
  {
    hide GoodParent, InPlace, ReadRecord, AddEntry, EntryBytes, Utf16, OnlySlot, PutRecord, AddDirectoryEntry;
    ParentReadable(v, parent);
    AddedInPlace(v, parent, n, name);
    var record, e := ReadRecord(v, parent).value, EntryBytes(n, parent, Utf16(name));
    ReadLength(v, parent);
    AddedLength(record, e);
    if AddEntry(record, e).Success? {
      PutOnlySlot(v, parent, AddEntry(record, e).value);
      PutFails(v, parent, AddEntry(record, e).value);
      var w := PutRecord(v, parent, AddEntry(record, e).value).1;
      if w != v {
        OtherSlot(v, w, parent, n);
      }
    }
  }

  lemma {:induction false} NameFits(recordSize: nat, n: nat, name: string, parent: nat, isDirectory: bool,
                                    data: seq<Byte>)
    requires BuildRecord(recordSize, n, name, parent, isDirectory, data).Success?
    ensures |Utf16(name)| <= 255
  {
    hide Utf16, AttributesOf;
  }

  /** Exactly when a creation in a good directory succeeds, in terms a caller can look up beforehand. */
  lemma CreateSucceedsIff(v: Volume, parent: U64, name: string, isDirectory: bool, data: seq<Byte>)
    requires GoodParent(v, parent) && SectorFits(v.sector) && Separate(v, parent, name)
    ensures CreateFile(v, parent, name, isDirectory, data).0.Success? <==>
            Preparable(v, parent, name, isDirectory, data) && Storable(v) && Taken(v, parent, name)
  {
    hide GoodParent, Prepare, PutRecord, AddDirectoryEntry, ReadRecord, Preparable, Storable, Taken, Separate;
    PreparedIff(v, parent, name, isDirectory, data);
    if Preparable(v, parent, name, isDirectory, data) {
      StoredIff(v, parent, name, isDirectory, data);
      if Storable(v) {
        StoredThenListed(v, parent, name, isDirectory, data);
      }
    }
  }

  // ----- What a failed creation leaves

  /** Whether a creation got as far as storing the new record. */
  predicate Stored(v: Volume, parent: nat, name: string, isDirectory: bool, data: seq<Byte>) {
    var p := Prepare(v, parent, name, isDirectory, data);
    p.Success? && PutRecord(v, p.value.0, p.value.1).0.Success?
  }

  /** Whatever the parent is: a failed creation leaves the volume as it was exactly if the new record was not
      stored. Otherwise the record stays in what was a free slot, complete, and nothing else has changed. The block
      of an external index must not overlap the new record. */
  lemma FailedCreation(v: Volume, parent: U64, name: string, isDirectory: bool, data: seq<Byte>)
    requires SectorFits(v.sector) && CreateFile(v, parent, name, isDirectory, data).0.Failure?
    requires var p := Prepare(v, parent, name, isDirectory, data); p.Success? ==> BlockApart(v, parent, p.value.0)
    ensures var w := CreateFile(v, parent, name, isDirectory, data).1;
      && (w == v <==> !Stored(v, parent, name, isDirectory, data))
      && (Stored(v, parent, name, isDirectory, data) ==>
            var n := Prepare(v, parent, name, isDirectory, data).value.0;
            && IsFree(v, n) && n != parent && OnlySlot(v, w, n)
            && Stat(w, n) == Success(NewStat(v.recordSize, name, isDirectory, data)))
  {
    hide BuildRecord, ReadRecord, PutRecord, Prepare, IsFree, Stat, NewStat, Volume.Slot, OnlySlot, AddDirectoryEntry,
         SameOutside, OnlySlots, BlockApart, OnlyBlock, BlockOf;
    var p := Prepare(v, parent, name, isDirectory, data);
    PreparedFree(v, parent, name, isDirectory, data);
    if p.Success? {
      var (n, record) := p.value;
      PutFails(v, n, record);
      if PutRecord(v, n, record).0.Success? {
        FreeOrUsed(v, n);
        NotTheParent(v, parent, name, isDirectory, data);
        PutNewRecord(v, n, name, parent, isDirectory, data);
        var v1 := PutRecord(v, n, record).1;
        OtherSlot(v, v1, n, parent);
        OnlySlotGeometry(v, v1, n);
        BlockApartStays(v, v1, parent, n);
        ListingKeepsOthers(v1, parent, n, name, n);
        ListingEffect(v1, parent, n, name);
        StatIsRead(v1, n);
      }
    }
  }

  lemma StatIsRead(v: Volume, n: nat)
    ensures Stat(v, n).Success? ==> ReadRecord(v, n).Success?
  {
  }

  /** A record that cannot be read is not taken for one without the name. */
  lemma NotTheParent(v: Volume, parent: nat, name: string, isDirectory: bool, data: seq<Byte>)
    ensures var p := Prepare(v, parent, name, isDirectory, data); p.Success? ==> p.value.0 != parent
  {
    hide AllocateFrom, BuildRecord, StatOf, ReadRecord, IsFree, IndexData, Entries, Lookup, Utf8Length;
    PreparedFree(v, parent, name, isDirectory, data);
    if IsFree(v, parent) {
      FreeUnreadable(v, parent);
    }
  }

  lemma FreeUnreadable(v: Volume, n: nat)
    requires IsFree(v, n)
    ensures ReadRecord(v, n) == Failure(InvalidMftRecord)
  {
    hide Volume.Slot;
  }

  /** In a good directory: a creation fails and leaves its record behind exactly when everything is ready but the
      parent does not take the name. */
  lemma OrphanIff(v: Volume, parent: U64, name: string, isDirectory: bool, data: seq<Byte>)
    requires GoodParent(v, parent) && SectorFits(v.sector) && BlockApart(v, parent, FirstFree(v))
    ensures var (r, w) := CreateFile(v, parent, name, isDirectory, data);
      r.Failure? && w != v <==>
      Preparable(v, parent, name, isDirectory, data) && Storable(v) && !Taken(v, parent, name)
  {
    hide GoodParent, Prepare, PutRecord, CreateFile, Preparable, Storable, Taken, OnlySlot, Stat, IsFree, BlockApart,
         InPlace;
    CreateSucceedsIff(v, parent, name, isDirectory, data);
    PreparedIff(v, parent, name, isDirectory, data);
    if CreateFile(v, parent, name, isDirectory, data).0.Failure? {
      FailedCreation(v, parent, name, isDirectory, data);
    }
    if Preparable(v, parent, name, isDirectory, data) {
      StoredIff(v, parent, name, isDirectory, data);
    }
  }
}
