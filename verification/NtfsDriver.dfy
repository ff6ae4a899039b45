/** The driver as the program has it: an object that owns a device and edits record buffers in place. */
module NtfsDriver {
  import opened Wrappers
  import opened Bytes
  import opened BlockStorage
  import opened NtfsTypes
  import opened NtfsFixups
  import opened NtfsRuns
  import opened NtfsAttributes
  import opened NtfsIndex
  import opened NtfsInsert
  import opened NtfsExternal
  import opened NtfsBuild
  import opened NtfsVolume
  import opened NtfsPaths

  class NtfsDriver {
    const device: BlockDevice
    const mftOffset: nat
    const sector: nat
    const clusterSize: nat
    const recordSize: nat
    const totalSectors: nat

    function View(): Volume
      reads device
    {
      Volume(device.State(), mftOffset, sector, clusterSize, recordSize, totalSectors)
    }

    constructor (device: BlockDevice, mftOffset: nat, sector: nat, clusterSize: nat, recordSize: nat,
                 totalSectors: nat)
      ensures this.device == device
      ensures View() == Volume(device.State(), mftOffset, sector, clusterSize, recordSize, totalSectors)
    {
      this.device, this.mftOffset, this.sector := device, mftOffset, sector;
      this.clusterSize, this.recordSize, this.totalSectors := clusterSize, recordSize, totalSectors;
    }

    /** A record read from disk with its fixups undone, in a buffer of its own. */
    method ReadMftRecord(n: nat) returns (r: Outcome<()>, buf: array<Byte>)
      ensures fresh(buf)
      ensures var s := ReadRecord(View(), n);
              if s.Success? then r == Success(()) && buf[..] == s.value else r == Failure(s.error)
    {
      hide ApplyFixups;
      buf := new Byte[0];
      var raw := device.ReadBlocks(View().Slot(n), recordSize);
      if raw.None? {
        return Failure(IoError), buf;
      }
      if |raw.value| < 4 {
        return Failure(Panicked), buf;
      }
      if raw.value[0..4] != FILE_SIGNATURE {
        return Failure(InvalidMftRecord), buf;
      }
      var bytes := raw.value;
      buf := new Byte[|bytes|](i requires 0 <= i < |bytes| => bytes[i]);
      assert buf[..] == bytes;
      r := ApplyFixupsInPlace(buf, sector);
    }

    method GetStat(n: nat) returns (r: Outcome<NtfsStat>)
      ensures r == Stat(View(), n)
    {
      hide ReadRecord, StatOf;
      var read, buf := ReadMftRecord(n);
      if read.Failure? {
        return read.PropagateFailure();
      }
      r := ParseStat(buf[..], clusterSize);
    }

    method GetIndexData(n: nat, st: NtfsStat) returns (r: Outcome<seq<Byte>>)
      ensures r == IndexData(View(), n, st)
    {
      hide ReadRecord, FindAttribute, Value;
      if st.indexRoot.Some? {
        return Success(st.indexRoot.value);
      }
      var read, buf := ReadMftRecord(n);
      if read.Failure? {
        return read.PropagateFailure();
      }
      var record := buf[..];
      var at := FindAttributeOffset(record, INDEX_ROOT);
      if at.Failure? {
        return at.PropagateFailure();
      }
      if at.value + 8 >= |record| {
        return Failure(Panicked);
      }
      if record[at.value + 8] != 0 {
        return Failure(NotSupported);
      }
      if at.value + 22 > |record| {
        return Failure(Panicked);
      }
      var valueOffset := ReadU16(record, at.value + 20);
      if at.value + valueOffset > |record| {
        return Failure(Panicked);
      }
      return Success(record[at.value + valueOffset..]);
    }

    method ListNames(n: nat) returns (r: Outcome<seq<string>>)
      ensures r == List(View(), n)
    {
      hide Stat, IndexData, Entries;
      var st := GetStat(n);
      if st.Failure? {
        return st.PropagateFailure();
      }
      var data := GetIndexData(n, st.value);
      if data.Failure? {
        return data.PropagateFailure();
      }
      var names := ListDirectory(data.value);
      return Success(names);
    }

    method FindName(n: nat, name: string) returns (r: Outcome<nat>)
      ensures r == Find(View(), n, name)
    {
      hide Stat, IndexData, Entries, Lookup;
      var st := GetStat(n);
      if st.Failure? {
        return st.PropagateFailure();
      }
      var data := GetIndexData(n, st.value);
      if data.Failure? {
        return data.PropagateFailure();
      }
      r := FindInDirectory(data.value, name);
    }

    /** Walks a path from the root directory, one component after another. */
    method OpenPath(path: string) returns (r: Outcome<nat>)
      ensures r == Open(View(), path)
    {
      hide Stat, IndexData, Entries, Lookup, ReadRecord, Normalize, Components;
      var normalized := NormalizePath(path);
      if normalized == "/" || normalized == [] {
        return Success(ROOT);
      }
      var current, parts, i := ROOT, Components(normalized), 0;
      while i < |parts|
        invariant i <= |parts| && Follow(View(), ROOT, parts) == Follow(View(), current, parts[i..])
      {
        assert parts[i..][0] == parts[i] && parts[i..][1..] == parts[i + 1..];
        var child := EnterChild(current, parts[i]);
        if child.Failure? {
          return child;
        }
        current, i := child.value, i + 1;
      }
      return Success(current);
    }

    method EnterChild(current: nat, component: string) returns (r: Outcome<nat>)
      ensures r == Enter(View(), current, component)
    {
      hide Stat, IndexData, Entries, Lookup, ReadRecord;
      if component == ".." {
        return Failure(InvalidInput);
      }
      var st := GetStat(current);
      if st.Failure? {
        return st.PropagateFailure();
      }
      if !st.value.isDirectory {
        return Failure(NotADirectory);
      }
      var data := GetIndexData(current, st.value);
      if data.Failure? {
        return data.PropagateFailure();
      }
      r := FindInDirectory(data.value, component);
      if r.Success? {
        var read, _ := ReadMftRecord(r.value);
        if read.Failure? {
          return read.PropagateFailure();
        }
      }
    }

    method ReadAll(n: nat) returns (r: Outcome<seq<Byte>>)
      ensures r == ReadFileAll(View(), n)
    {
      hide Stat, ReadExtents;
      var st := GetStat(n);
      if st.Failure? {
        return st.PropagateFailure();
      }
      if st.value.isDirectory {
        return Failure(NotAFile);
      }
      var runs, contents := st.value.dataRuns, [];
      BeforeAll(Contents(View(), runs));
      for i := 0 to |runs|
        invariant Contents(View(), runs) == Before(contents, Contents(View(), runs[i..]))
      {
        assert runs[i..][1..] == runs[i + 1..];
        var data := ReadOneRun(runs[i]);
        if data.Failure? {
          return data;
        }
        BeforeMore(contents, data.value, Contents(View(), runs[i + 1..]));
        contents := contents + data.value;
      }
      assert contents + [] == contents;
      return Success(contents);
    }

    method ReadOneRun(run: DataRun) returns (r: Outcome<seq<Byte>>)
      ensures r == ReadRun(View(), run)
    {
      match run
      case Resident(data) => r := Success(data);
      case NonResident(extents) => r := ReadClusters(extents);
    }

    method ReadClusters(extents: Extents) returns (r: Outcome<seq<Byte>>)
      ensures r == ReadExtents(View(), extents)
    {
      hide ReadOffset;
      var contents: seq<Byte> := [];
      BeforeAll(ReadExtents(View(), extents));
      for i := 0 to |extents|
        invariant ReadExtents(View(), extents) == Before(contents, ReadExtents(View(), extents[i..]))
      {
        assert extents[i..][1..] == extents[i + 1..];
        var offset, size := extents[i].0 * clusterSize, extents[i].1 * clusterSize;
        if offset >= 0x1_0000_0000_0000_0000 || size >= I64_LIMIT {
          return Failure(Panicked);
        }
        var buffer := device.ReadBlocks(ReadOffset(View(), extents[i].0), size);
        if buffer.None? {
          return Failure(IoError);
        }
        BeforeMore(contents, buffer.value, ReadExtents(View(), extents[i + 1..]));
        contents := contents + buffer.value;
      }
      assert contents + [] == contents;
      return Success(contents);
    }

    method AllocateMftRecord() returns (r: Outcome<nat>)
      ensures r == AllocateFrom(View(), START_SCAN)
    {
      hide IsFree;
      var n := START_SCAN;
      while n < MAX_SCAN
        invariant n <= MAX_SCAN && AllocateFrom(View(), START_SCAN) == AllocateFrom(View(), n)
      {
        var buf := device.ReadBlocks(View().Slot(n), recordSize);
        FreeSlot(View(), n);
        if buf.Some? {
          if |buf.value| < 4 {
            return Failure(Panicked);
          }
          var signature := buf.value[0..4];
          if signature != FILE_SIGNATURE && signature != BAAD_SIGNATURE {
            return Success(n);
          }
        }
        n := n + 1;
      }
      return Failure(NoSpace);
    }

    /** Redoes the fixups in place and writes the record to its slot. */
    method WriteMftRecord(n: nat, record: array<Byte>) returns (r: Outcome<()>)
      modifies record, device`content
      ensures (r, View()) == PutRecord(old(View()), n, old(record[..]))
    {
      hide ReapplyFixups;
      r := ReapplyFixupsInPlace(record, sector);
      if r.Failure? {
        return;
      }
      var ok := device.WriteBlocks(View().Slot(n), record[..]);
      return if ok then Success(()) else Failure(IoError);
    }

    method AddEntryTo(parent: nat, child: nat, name: string) returns (r: Outcome<()>)
      modifies device`content
      ensures (r, View()) == AddDirectoryEntry(old(View()), parent, child, name)
    {
      hide ReadRecord, AddEntry, EntryBytes, FindAttribute, PutRecord;
      var read, record := ReadMftRecord(parent);
      if read.Failure? {
        return read;
      }
      var external := FindAttributeOffset(record[..], INDEX_ALLOCATION);
      r := AddToResidentIndex(record, child, parent, name);
      if r.Failure? {
        if r.error == NoSpace && external.Success? {
          r := AddExternalEntry(record[..], parent, child, name);
        }
        return;
      }
      r := WriteMftRecord(parent, record);
    }

    method AddExternalEntry(record: seq<Byte>, parent: nat, child: nat, name: string) returns (r: Outcome<()>)
      modifies device`content
      ensures (r, View()) == AddExternal(old(View()), record, EntryBytes(child, parent, Utf16(name)))
    {
      hide IndexBlock, BlockEdited, EntryBytes;
      var place := LocateBlock(record, View().PartitionSize(), clusterSize);
      if place.Failure? {
        return place.PropagateFailure();
      }
      var (at, size) := place.value;
      var raw := device.ReadBlocks(at, size);
      if raw.None? {
        return Failure(IoError);
      }
      var bytes := raw.value;
      var block := new Byte[|bytes|](i requires 0 <= i < |bytes| => bytes[i]);
      assert block[..] == bytes;
      r := EditBlock(block, child, parent, name);
      if r.Failure? {
        return;
      }
      var ok := device.WriteBlocks(at, block[..]);
      return if ok then Success(()) else Failure(IoError);
    }

    method Create(parent: nat, name: string, isDirectory: bool, data: seq<Byte>) returns (r: Outcome<nat>)
      modifies device`content
      ensures (r, View()) == CreateFile(old(View()), parent, name, isDirectory, data)
    {
      hide Stat, Find, AllocateFrom, BuildRecord, PutRecord, AddDirectoryEntry, ReadRecord;
      if parent != ROOT {
        var st := GetStat(parent);
        if st.Failure? {
          return st.PropagateFailure();
        }
        if !st.value.isDirectory {
          return Failure(NotADirectory);
        }
      }
      var found := FindName(parent, name);
      if found.Success? {
        return Failure(AlreadyExists);
      }
      if found.error != FileNotFound {
        return found;
      }
      if Utf8Length(name) > 255 {
        return Failure(NameTooLong);
      }
      var n := AllocateMftRecord();
      if n.Failure? {
        return n;
      }
      var built, record := BuildMftRecord(recordSize, n.value, name, parent, isDirectory, data);
      if built.Failure? {
        return built.PropagateFailure();
      }
      var put := WriteMftRecord(n.value, record);
      if put.Failure? {
        return put.PropagateFailure();
      }
      var added := AddEntryTo(parent, n.value, name);
      if added.Failure? {
        return added.PropagateFailure();
      }
      var back, _ := ReadMftRecord(n.value);
      return if back.Failure? then back.PropagateFailure() else n;
    }

    method WriteFile(n: nat, data: seq<Byte>) returns (r: Outcome<()>)
      modifies device`content
      ensures (r, View()) == WriteResidentFile(old(View()), n, data)
    {
      hide Stat, ReadRecord, FindAttribute, UpdateResident, PutRecord;
      var st := GetStat(n);
      if st.Failure? {
        return st.PropagateFailure();
      }
      var runs := st.value.dataRuns;
      if runs == [] || runs[0].NonResident? || |data| != |runs[0].data| {
        return Failure(InvalidAttribute);
      }
      var read, record := ReadMftRecord(n);
      if read.Failure? {
        return read;
      }
      var at := FindAttributeOffset(record[..], DATA);
      if at.Failure? {
        return at.PropagateFailure();
      }
      r := UpdateResidentData(record, at.value, data);
      if r.Failure? {
        return;
      }
      r := WriteMftRecord(n, record);
    }
  }

  ghost function Before(done: seq<Byte>, r: Outcome<seq<Byte>>): Outcome<seq<Byte>> {
    if r.Success? then Success(done + r.value) else r
  }

  lemma BeforeAll(r: Outcome<seq<Byte>>)
    ensures Before([], r) == r
  {
    if r.Success? {
      assert [] + r.value == r.value;
    }
  }

  lemma BeforeMore(done: seq<Byte>, more: seq<Byte>, r: Outcome<seq<Byte>>)
    ensures Before(done, Before(more, r)) == Before(done + more, r)
  {
    if r.Success? {
      Assoc(done, more, r.value);
    }
  }

  lemma FreeSlot(v: Volume, n: nat)
    ensures IsFree(v, n) <==>
      match v.disk.Read(v.Slot(n), v.recordSize)
      case None => false
      case Some(buf) => |buf| >= 4 && buf[0..4] != FILE_SIGNATURE && buf[0..4] != BAAD_SIGNATURE
  {
  }
}
