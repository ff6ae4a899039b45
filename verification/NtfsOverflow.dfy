/** Names that do not fit into the index in the directory's record and go to its external index. */
module NtfsOverflow {
  import opened Wrappers
  import opened Bytes
  import opened NtfsTypes
  import opened NtfsFixups
  import opened NtfsAttributes
  import opened NtfsIndex
  import opened NtfsInsert
  import opened NtfsExternal
  import opened NtfsDirectory
  import opened NtfsBuild
  import opened NtfsBuiltRecord
  import opened NtfsVolume
  import opened NtfsCreate
  import opened NtfsExtents

  // ----- Writing the block

  /** The block that the external index of a record is taken to start with. */
  function BlockOf(v: Volume, record: seq<Byte>): Outcome<(nat, nat)> {
    IndexBlock(record, v.PartitionSize(), v.clusterSize)
  }

  /** `w` differs from `v` at most in one stretch of the device. */
  ghost predicate OnlyBlock(v: Volume, w: Volume, at: nat, size: nat) {
    exists data: seq<Byte> :: |data| == size && at + size <= |v.disk.bytes| && w == v.(disk := v.disk.Put(at, data))
  }

  predicate ApartFrom(v: Volume, at: nat, size: nat, m: nat) {
    at + size <= v.Slot(m) || v.Slot(m) + v.recordSize <= at
  }

  /** The block that a directory's record names does not overlap the slot of record `m`. */
  predicate BlockApart(v: Volume, parent: nat, m: nat) {
    var record := ReadRecord(v, parent);
    record.Success? && BlockOf(v, record.value).Success? ==>
      var (at, size) := BlockOf(v, record.value).value; ApartFrom(v, at, size, m)
  }

  lemma BlockLeaves(v: Volume, w: Volume, at: nat, size: nat, m: nat)
    requires OnlyBlock(v, w, at, size) && ApartFrom(v, at, size, m)
    ensures ReadRecord(w, m) == ReadRecord(v, m)
    ensures w.disk.Read(w.Slot(m), w.recordSize) == v.disk.Read(v.Slot(m), v.recordSize)
    ensures w == v.(disk := w.disk)
  {
    hide Splice, Volume.Slot, ApplyFixups;
    var data: seq<Byte> :| |data| == size && at + size <= |v.disk.bytes| && w == v.(disk := v.disk.Put(at, data));
    SameSlot(v, w, m);
    if v.Slot(m) + v.recordSize <= |v.disk.bytes| {
      SpliceOutside(v.disk.bytes, at, data, v.Slot(m), v.Slot(m) + v.recordSize);
    }
  }

  /** A failed attempt changes nothing, and a successful one changes the block. */
  lemma ExternalEffect(v: Volume, record: seq<Byte>, e: seq<Byte>)
    ensures var (r, w) := AddExternal(v, record, e);
      && (r.Failure? ==> w == v)
      && (r.Success? ==> BlockOf(v, record).Success?
                         && var (at, size) := BlockOf(v, record).value; OnlyBlock(v, w, at, size))
  {
    hide IndexBlock, BlockEdited, Splice;
  }

  /** Adding an entry, whatever the parent is: a failed attempt changes nothing, and a successful one changes either
      the parent's record or the block that it names. */
  lemma ListingEffect(v: Volume, parent: nat, n: nat, name: string)
    ensures var (r, w) := AddDirectoryEntry(v, parent, n, name);
      && (r.Failure? ==> w == v)
      && (r.Success? ==> ReadRecord(v, parent).Success?)
      && (r.Success? ==>
            || OnlySlot(v, w, parent)
            || (BlockOf(v, ReadRecord(v, parent).value).Success?
                && var (at, size) := BlockOf(v, ReadRecord(v, parent).value).value; OnlyBlock(v, w, at, size)))
  {
    hide ReadRecord, AddEntry, EntryBytes, FindAttribute, Utf16, OnlySlot, OnlyBlock, PutRecord, BlockOf, AddExternal;
    ReadLength(v, parent);
    var record := ReadRecord(v, parent);
    if record.Success? {
      var e := EntryBytes(n, parent, Utf16(name));
      ExternalEffect(v, record.value, e);
      AddedLength(record.value, e);
      if AddEntry(record.value, e).Success? {
        PutOnlySlot(v, parent, AddEntry(record.value, e).value);
        PutFails(v, parent, AddEntry(record.value, e).value);
      }
    }
  }

  lemma AddedLength(record: seq<Byte>, e: seq<Byte>)
    ensures AddEntry(record, e).Success? ==> |AddEntry(record, e).value| == |record|
  {
  }

  lemma PutFails(v: Volume, n: nat, record: seq<Byte>)
    ensures PutRecord(v, n, record).0.Failure? ==> PutRecord(v, n, record).1 == v
  {
    hide ReapplyFixups;
  }

  /** Adding an entry leaves a record alone that is neither the parent nor under the block. */
  lemma ListingKeepsOthers(v: Volume, parent: nat, n: nat, name: string, m: nat)
    requires m != parent && BlockApart(v, parent, m)
    ensures var w := AddDirectoryEntry(v, parent, n, name).1;
      ReadRecord(w, m) == ReadRecord(v, m) && w.clusterSize == v.clusterSize && w.recordSize == v.recordSize
  {
    hide ReadRecord, AddDirectoryEntry, OnlySlot, OnlyBlock, BlockOf;
    ListingEffect(v, parent, n, name);
    var (r, w) := AddDirectoryEntry(v, parent, n, name);
    if r.Success? {
      if OnlySlot(v, w, parent) {
        OtherSlot(v, w, parent, m);
        OnlySlotGeometry(v, w, parent);
      } else {
        var (at, size) := BlockOf(v, ReadRecord(v, parent).value).value;
        BlockLeaves(v, w, at, size, m);
      }
    }
  }

  // ----- When the block takes the name

  /** The block can be read and written, and takes the entry. */
  ghost predicate BlockTakes(v: Volume, record: seq<Byte>, e: seq<Byte>) {
    && BlockOf(v, record).Success?
    && var (at, size) := BlockOf(v, record).value;
       && v.disk.Read(at, size).Some? && BlockEdited(v.disk.Read(at, size).value, e).Success?
       && v.disk.writable(at, size)
  }

  lemma ExternalIff(v: Volume, record: seq<Byte>, e: seq<Byte>)
    ensures AddExternal(v, record, e).0.Success? <==> BlockTakes(v, record, e)
  {
    hide IndexBlock, BlockEdited;
  }

  /** Writing the slot of a new record first makes no difference to a block apart from it. */
  lemma BlockTakesStays(v: Volume, w: Volume, parent: nat, n: nat, e: seq<Byte>)
    requires OnlySlot(v, w, n) && BlockApart(v, parent, n) && ReadRecord(v, parent).Success?
    ensures var record := ReadRecord(v, parent).value; BlockTakes(w, record, e) == BlockTakes(v, record, e)
  {
    hide IndexBlock, BlockEdited, ReadRecord, OnlySlot, Volume.Slot;
    OnlySlotGeometry(v, w, n);
    var record := ReadRecord(v, parent).value;
    if BlockOf(v, record).Success? {
      var (at, size) := BlockOf(v, record).value;
      OutsideSlot(v, w, n, at, size);
    }
  }

  /** A name that is not taken in place goes to the block. */
  lemma {:induction false} AddedElsewhere(v: Volume, parent: nat, n: nat, name: string)
    requires GoodParent(v, parent) && !InPlace(v, parent, name)
    ensures AddDirectoryEntry(v, parent, n, name)
         == AddExternal(v, ReadRecord(v, parent).value, EntryBytes(n, parent, Utf16(name)))
  {
    hide Value, DirAttributes, StatFrom, Entries, IndexValue, FirstOffset, UsaOffset, UsaCount, Apart, ReadRecord,
         PutRecord, EntryBytes, Utf16, FindAttribute, GoodIndex, TotalSize, AllocatedSize, AddExternal, Locate;
    var record := ReadRecord(v, parent).value;
    AddEntryGood(record, EntryBytes(n, parent, Utf16(name)));
    GoodIndexSizes(IndexValue(AttributeList(record)));
  }

  // ----- The names that are lost

  /** What a creation that reports success has done when the name went to the external index. */
  ghost predicate Lost(v: Volume, w: Volume, parent: nat, n: nat, name: string, isDirectory: bool, data: seq<Byte>)
    requires GoodParent(v, parent)
  {
    // the record is on disk, in what was a free slot
    && START_SCAN <= n < MAX_SCAN && n != parent && IsFree(v, n)
    && Stat(w, n) == Success(NewStat(v.recordSize, name, isDirectory, data))
    // but the parent is what it was
    && ReadRecord(w, parent) == ReadRecord(v, parent)
    && GoodParent(w, parent) && ParentEntries(w, parent) == ParentEntries(v, parent)
    // so that nothing finds or lists the name
    && Find(w, parent, name) == Failure(FileNotFound) && List(w, parent) == List(v, parent)
  }

  /** A creation in a good directory whose own index is full and which has an external index: if it reports success,
      the name cannot be looked up and is not listed, because the readers do not look at the external index. The
      block must overlap neither the new record nor the parent's. */
  lemma FullDirectoryLosesNames(v: Volume, parent: U64, name: string, isDirectory: bool, data: seq<Byte>)
    requires GoodParent(v, parent) && SectorFits(v.sector) && !InPlace(v, parent, name)
    requires BlockApart(v, parent, parent)
    requires var p := Prepare(v, parent, name, isDirectory, data); p.Success? ==> BlockApart(v, parent, p.value.0)
    ensures var (r, w) := CreateFile(v, parent, name, isDirectory, data);
      r.Success? ==> Lost(v, w, parent, r.value, name, isDirectory, data)
  {
    hide GoodParent, OnlySlot, OnlyBlock, IsFree, BuildRecord, PutRecord, AddDirectoryEntry, ReadRecord, StatOf,
         Prepare, Volume.Slot, ParentEntries, Lookup, NewStat, Stat, Find, List, IndexOfParent, SameOutside, Utf16,
         InPlace, BlockOf, SmallParent;
    var p := Prepare(v, parent, name, isDirectory, data);
    Prepared(v, parent, name, isDirectory, data);
    if p.Success? {
      var (n, record) := p.value;
      var (put, v1) := PutRecord(v, n, record);
      FreeOrUsed(v, n);
      ParentReadable(v, parent);
      PutNewRecord(v, n, name, parent, isDirectory, data);
      if put.Success? {
        PutKeepsVolume(v, n, record);
        ParentSurvives(v, v1, n, parent);
        OtherSlot(v, v1, n, parent);
        OnlySlotGeometry(v, v1, n);
        BlockApartStays(v, v1, parent, n);
        BlockApartStays(v, v1, parent, parent);
        AddedElsewhere(v1, parent, n, name);
        var (added, w) := AddDirectoryEntry(v1, parent, n, name);
        if added.Success? {
          ElsewhereKeeps(v1, w, parent, n, name);
          StatSame(v1, w, n);
          NothingListed(v, w, parent, name);
        }
      }
    }
  }

  lemma BlockApartStays(v: Volume, w: Volume, parent: nat, m: nat)
    requires ReadRecord(w, parent) == ReadRecord(v, parent) && w == v.(disk := w.disk)
    ensures BlockApart(w, parent, m) == BlockApart(v, parent, m)
  {
    hide ReadRecord, IndexBlock;
  }

  lemma ElsewhereKeeps(v: Volume, w: Volume, parent: nat, n: nat, name: string)
    requires GoodParent(v, parent) && !InPlace(v, parent, name) && n != parent
    requires BlockApart(v, parent, n) && BlockApart(v, parent, parent)
    requires AddDirectoryEntry(v, parent, n, name).0.Success? && w == AddDirectoryEntry(v, parent, n, name).1
    ensures ReadRecord(w, n) == ReadRecord(v, n) && ReadRecord(w, parent) == ReadRecord(v, parent)
    ensures w == v.(disk := w.disk)
  {
    hide GoodParent, ReadRecord, OnlyBlock, BlockOf, AddDirectoryEntry, AddExternal, EntryBytes, Utf16, InPlace;
    AddedElsewhere(v, parent, n, name);
    ParentReadable(v, parent);
    var record := ReadRecord(v, parent).value;
    ExternalEffect(v, record, EntryBytes(n, parent, Utf16(name)));
    var (at, size) := BlockOf(v, record).value;
    BlockLeaves(v, w, at, size, n);
    BlockLeaves(v, w, at, size, parent);
  }

  lemma {:induction false} NothingListed(v: Volume, w: Volume, parent: nat, name: string)
    requires GoodParent(v, parent) && ReadRecord(w, parent) == ReadRecord(v, parent) && w == v.(disk := w.disk)
    requires Lookup(ParentEntries(v, parent), name) == Failure(FileNotFound)
    ensures GoodParent(w, parent) && ParentEntries(w, parent) == ParentEntries(v, parent)
    ensures Find(w, parent, name) == Failure(FileNotFound) && List(w, parent) == List(v, parent)
  {
    hide ReadRecord, GoodDirectory, FixupsSafe, StatOf, Lookup, Names, Entries, IndexFromRecord, FirstOffset,
         DirEntries;
    SameParent(v, w, parent);
    ReadersAgree(v, parent);
  }

  lemma SameParent(v: Volume, w: Volume, parent: nat)
    requires GoodParent(v, parent) && ReadRecord(w, parent) == ReadRecord(v, parent) && w == v.(disk := w.disk)
    ensures GoodParent(w, parent) && ParentEntries(w, parent) == ParentEntries(v, parent)
    ensures DirectoryEntries(w, parent) == DirectoryEntries(v, parent)
  {
    hide ReadRecord, GoodDirectory, FixupsSafe, StatOf, IndexFromRecord, FirstOffset, DirEntries, Entries;
  }
}
