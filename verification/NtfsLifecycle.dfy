/** A file from its creation through overwrites to a later read. */
module NtfsLifecycle {
  import opened Wrappers
  import opened Bytes
  import opened NtfsTypes
  import opened NtfsFixups
  import opened NtfsAttributes
  import opened NtfsInsert
  import opened NtfsBuild
  import opened NtfsBuiltRecord
  import opened NtfsVolume
  import opened NtfsCreate
  import opened NtfsExternal
  import opened NtfsOutcome
  import opened NtfsRewrite

  // ----- When an overwrite succeeds

  /** The edited record has the fixups of the old one. */
  lemma EditedFixups(v: Volume, n: nat, data: seq<Byte>)
    requires GoodFile(v, n) && |data| == |DataValue(FileList(ReadRecord(v, n).value))|
    ensures var record := ReadRecord(v, n).value;
      var at := FirstOffset(record) + DataSpan(FileList(record)).lo;
      && at + |data| <= |record|
      && FixupsSafe(Splice(record, at, data), v.sector)
      && Refixable(Splice(record, at, data), v.sector) == Refixable(record, v.sector)
  {
    hide Value, FirstOffset, HasData, DataSpan, Splice, UsaOffset, UsaCount, Apart, ReadRecord;
    var record := ReadRecord(v, n).value;
    DataInside(FileList(record));
    EditedRecord(record, data);
  }

  /** An overwrite succeeds exactly when the new contents are as long as both the first data run and the first data
      attribute, and the record's fixups can be made and its slot written. */
  lemma RewriteSucceedsIff(v: Volume, n: nat, data: seq<Byte>)
    requires GoodFile(v, n)
    ensures var (st, record) := (Stat(v, n), ReadRecord(v, n).value);
      WriteResidentFile(v, n, data).0.Success? <==>
      && st.Success? && st.value.dataRuns != [] && st.value.dataRuns[0].Resident?
      && |data| == |st.value.dataRuns[0].data| == |DataValue(FileList(record))|
      && Refixable(record, v.sector) && v.disk.writable(v.Slot(n), v.recordSize)
  {
    hide Value, FirstOffset, HasData, DataSpan, Splice, UsaOffset, UsaCount, Apart, FindAttribute, UpdateResident,
         StatOf, ReadRecord, Volume.Slot, ReapplyFixups, FixupsSafe, Refixable;
    var record := ReadRecord(v, n).value;
    var s, first := FileList(record), FirstOffset(record);
    DataInside(s);
    UpdateGood(record, data);
    ReadLength(v, n);
    SlotInside(v, n);
    if |data| == |DataValue(s)| {
      EditedFixups(v, n, data);
      var edited := Splice(record, first + DataSpan(s).lo, data);
      RefixedIff(edited, v.sector);
      ReapplyLength(edited, v.sector);
    }
  }

  // ----- A created file can be overwritten

  /** The attributes of a new file: the first data attribute is the unnamed one and holds the contents. */
  lemma {:induction false} FileAttributes(recordSize: nat, name: string, parent: U64, data: seq<Byte>, n: nat)
    requires |Utf16(name)| <= 255 && |data| < 0x1_0000
    ensures var s := AttributesOf(recordSize, name, parent, false, data) + (LE(4, END_MARK) + Zeros(n));
      HasData(s) && Unnamed(s) && DataValue(s) == data
  {
    hide Value, LE, Attr, NextAttribute, Utf16, KeyBytes, StandardInfoValue, PlainValue;
    var end := LE(4, END_MARK) + Zeros(n);
    var key := KeyBytes(parent, 0, Utf16(name));
    var std, named := Attr(STANDARD_INFO, StandardInfoValue(false), 0), Attr(FILE_NAME, key, 1);
    var last := Attr(DATA, data, 0);
    Assoc(std, named + last, end);
    Assoc(named, last, end);
    NextBuilt(STANDARD_INFO, StandardInfoValue(false), 0, named + (last + end));
    NextBuilt(FILE_NAME, key, 1, last + end);
    NextBuilt(DATA, data, 0, end);
    AttrFields(DATA, data, 0);
    DataFirst(last + end, data);
    DataBehind(named + (last + end));
    DataBehind(std + (named + (last + end)));
  }

  lemma {:induction false} DataFirst(s: seq<Byte>, data: seq<Byte>)
    requires NextAttribute(s) == Attribute(DATA, Attr(DATA, data, 0), true) && |data| < 0x1_0000
    ensures HasData(s) && Unnamed(s) && DataValue(s) == data
  {
    hide Value, LE, Attr, NextAttribute;
    AttrFields(DATA, data, 0);
    FirstData(s);
  }

  lemma {:induction false} DataBehind(s: seq<Byte>)
    requires NextAttribute(s).Attribute? && NextAttribute(s).code != DATA && HasData(s[|NextAttribute(s).bytes|..])
    ensures var t := s[|NextAttribute(s).bytes|..];
      HasData(s) && Unnamed(s) == Unnamed(t) && DataValue(s) == DataValue(t)
  {
    hide NextAttribute, DataSpan, PlainValue;
    HasDataBehind(s);
    RestData(s);
  }

  lemma {:induction false} HasDataBehind(s: seq<Byte>)
    requires NextAttribute(s).Attribute? && NextAttribute(s).code != DATA && HasData(s[|NextAttribute(s).bytes|..])
    ensures HasData(s)
  {
    hide NextAttribute, PlainValue;
  }

  /** A record that equals a new file's outside its fixup slots is a good file. */
  lemma BuiltIsFile(recordSize: nat, n: nat, name: string, parent: U64, data: seq<Byte>, back: seq<Byte>, sector: nat)
    requires BuildRecord(recordSize, n, name, parent, false, data).Success? && SectorFits(sector)
    requires SameOutside(BuildRecord(recordSize, n, name, parent, false, data).value, back, 50, 54)
    ensures |back| == recordSize >= 60 && FirstOffset(back) == 56 && back[0..4] == FILE_SIGNATURE
    ensures FixupsSafe(back, sector) && SlotsEnd(back) <= 56
    ensures Refixable(back, sector) <==> 2 * sector <= recordSize
    ensures HasData(FileList(back)) && Unnamed(FileList(back)) && DataValue(FileList(back)) == data
  {
    hide Value, LE, AttributesOf, FirstOffset, Utf16, BuildRecord, UsaOffset, UsaCount, HasData, DataSpan, Protected,
         SignatureClear;
    BuiltParts(recordSize, n, name, parent, false, data);
    BuiltLength(recordSize, n, name, parent, false, data);
    var b := BuildRecord(recordSize, n, name, parent, false, data).value;
    SameRest(b, back, 50, 54);
    assert b[56..] == b[54..][2..] && back[56..] == back[54..][2..];
    BuiltFixups(back, sector);
    FileAttributes(recordSize, name, parent, data,
                   recordSize - 60 - |AttributesOf(recordSize, name, parent, false, data)|);
  }

  /** What a creation leaves is a good file whose contents are its first, unnamed, data attribute. */
  lemma CreatedIsFile(v: Volume, w: Volume, parent: U64, n: nat, name: string, data: seq<Byte>)
    requires GoodParent(v, parent) && SectorFits(v.sector) && Created(v, w, parent, n, name, false, data)
    ensures GoodFile(w, n)
    ensures var s := FileList(ReadRecord(w, n).value); Unnamed(s) && DataValue(s) == data
    ensures Refixable(ReadRecord(w, n).value, w.sector) <==> 2 * v.sector <= v.recordSize
  {
    hide GoodParent, OnlySlots, IsFree, BuildRecord, ReadRecord, Stat, ParentEntries, SameOutside, HasData, DataSpan,
         FirstOffset, FixupsSafe, Refixable, SlotsEnd, SmallParent, Unprotected, Unnamed;
    BuiltIsFile(v.recordSize, n, name, parent, data, ReadRecord(w, n).value, v.sector);
  }

  /** Creating a file and then overwriting it: the overwrite succeeds exactly for contents of the same length. Then
      they are what is read, and the name still leads to the file. */
  lemma CreateThenRewrite(v: Volume, parent: U64, name: string, data: seq<Byte>, later: seq<Byte>)
    requires GoodParent(v, parent) && SectorFits(v.sector) && InPlace(v, parent, name)
    requires CreateFile(v, parent, name, false, data).0.Success?
    ensures var (made, w) := CreateFile(v, parent, name, false, data);
      var n := made.value;
      var (r, u) := WriteResidentFile(w, n, later);
      && (r.Success? <==> |later| == |data|)
      && (r.Success? ==>
            && ReadFileAll(u, n) == Success(later) && OnlySlot(w, u, n)
            && forall wanted :: Find(u, parent, wanted) == Find(w, parent, wanted))
  {
    hide GoodParent, CreateFile, Created, WriteResidentFile, ReadRecord, Stat, GoodFile, Unnamed, Find, OnlySlot,
         NewStat, InPlace, Preparable, Taken, ParentEntries, Refixable, FirstFree, DataSpan, FileList, IsFree;
    CreateFileCorrect(v, parent, name, false, data);
    var (n, w) := (CreateFile(v, parent, name, false, data).0.value, CreateFile(v, parent, name, false, data).1);
    CreatedIsFile(v, w, parent, n, name, data);
    CreatedFacts(v, w, parent, n, name, data);
    CreateSucceedsIff(v, parent, name, false, data);
    CreatedWhere(v, parent, name, false, data);
    CreatedDevice(v, parent, name, false, data);
    RewriteSucceedsIff(w, n, later);
    var (r, u) := WriteResidentFile(w, n, later);
    if r.Success? {
      RewriteReplaces(w, n, later);
      OneRun(u, later);
      OtherSlot(w, u, n, parent);
      OnlySlotGeometry(w, u, n);
      forall wanted ensures Find(u, parent, wanted) == Find(w, parent, wanted) {
        FindDepends(w, u, parent, wanted);
      }
    }
  }

  lemma FindDepends(v: Volume, w: Volume, parent: nat, wanted: string)
    requires ReadRecord(w, parent) == ReadRecord(v, parent) && w.clusterSize == v.clusterSize
    ensures Find(w, parent, wanted) == Find(v, parent, wanted)
  {
    hide ReadRecord;
  }

  lemma CreatedFacts(v: Volume, w: Volume, parent: nat, n: nat, name: string, data: seq<Byte>)
    requires GoodParent(v, parent) && Created(v, w, parent, n, name, false, data)
    ensures Stat(w, n).Success? && Stat(w, n).value.dataRuns == [Resident(data)] && !Stat(w, n).value.isDirectory
    ensures n != parent && w.recordSize == v.recordSize && w.sector == v.sector
  {
    hide GoodParent, OnlySlots, IsFree, BuildRecord, ReadRecord, Stat, ParentEntries, SameOutside, SmallParent;
  }

  /** The number returned is that of the first free slot. */
  lemma CreatedWhere(v: Volume, parent: nat, name: string, isDirectory: bool, data: seq<Byte>)
    requires GoodParent(v, parent) && CreateFile(v, parent, name, isDirectory, data).0.Success?
    ensures CreateFile(v, parent, name, isDirectory, data).0.value == FirstFree(v)
  {
    hide GoodParent, Prepare, PutRecord, AddDirectoryEntry, ReadRecord, Preparable, FirstFree, IsFree, BuildRecord;
    PreparedIff(v, parent, name, isDirectory, data);
  }

  /** A creation changes only bytes on the device. */
  lemma CreatedDevice(v: Volume, parent: nat, name: string, isDirectory: bool, data: seq<Byte>)
    ensures var w := CreateFile(v, parent, name, isDirectory, data).1;
      w.disk.writable == v.disk.writable && w.mftOffset == v.mftOffset && w.recordSize == v.recordSize
  {
    hide Prepare, ReadRecord, AddEntry, EntryBytes, ReapplyFixups, FindAttribute, IndexBlock, BlockEdited, Utf16,
         Splice;
  }
}
