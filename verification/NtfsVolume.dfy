/** The driver's operations on a mounted volume, each giving its outcome and the volume afterwards. */
module NtfsVolume {
  import opened Wrappers
  import opened Bytes
  import opened BlockStorage
  import opened NtfsTypes
  import opened NtfsFixups
  import opened NtfsRuns
  import opened NtfsAttributes
  import opened NtfsIndex
  import opened NtfsInsert
  import opened NtfsExternal
  import opened NtfsBuild

  /** A device with the geometry read from the boot sector when it was mounted. */
  datatype Volume = Volume(disk: Disk, mftOffset: nat, sector: nat, clusterSize: nat, recordSize: nat,
                           totalSectors: nat)
  {
    /** Where a file record lies on the device. */
    function Slot(n: nat): nat {
      mftOffset + n * recordSize
    }

    /** The size the boot sector gives. */
    function PartitionSize(): nat {
      totalSectors * sector
    }

    function Write(at: nat, data: seq<Byte>): Volume {
      this.(disk := disk.Write(at, data))
    }
  }

  const ROOT: nat := 5
  const START_SCAN: nat := 16
  const MAX_SCAN: nat := 100000

  // ----- Reading

  function ReadRecord(v: Volume, n: nat): (r: Outcome<seq<Byte>>)
    ensures r.Success? ==> |r.value| == v.recordSize
  {
    match v.disk.Read(v.Slot(n), v.recordSize)
    case None => Failure(IoError)
    case Some(buf) =>
      if |buf| < 4 then Failure(Panicked)
      else if buf[0..4] != FILE_SIGNATURE then Failure(InvalidMftRecord)
      else ApplyFixups(buf, v.sector)
  }

  function Stat(v: Volume, n: nat): Outcome<NtfsStat> {
    var record :- ReadRecord(v, n);
    StatOf(record, v.clusterSize)
  }

  function IsDirectory(v: Volume, n: nat): Outcome<bool> {
    if n == ROOT then Success(true)
    else
      var st :- Stat(v, n);
      Success(st.isDirectory)
  }

  /** The value of the first index root, when the metadata has none. */
  function IndexFromRecord(record: seq<Byte>): Outcome<seq<Byte>> {
    var at :- FindAttribute(record, INDEX_ROOT);
    if at + 8 >= |record| then Failure(Panicked)
    else if record[at + 8] != 0 then Failure(NotSupported)
    else if at + 22 > |record| || at + ReadU16(record, at + 20) > |record| then Failure(Panicked)
    else Success(record[at + ReadU16(record, at + 20)..])
  }

  function IndexData(v: Volume, n: nat, st: NtfsStat): Outcome<seq<Byte>> {
    if st.indexRoot.Some? then Success(st.indexRoot.value)
    else
      var record :- ReadRecord(v, n);
      IndexFromRecord(record)
  }

  function DirectoryEntries(v: Volume, n: nat): Outcome<seq<DirEntry>> {
    var st :- Stat(v, n);
    var data :- IndexData(v, n, st);
    Success(Entries(data))
  }

  function List(v: Volume, n: nat): Outcome<seq<string>> {
    var es :- DirectoryEntries(v, n);
    Success(Names(es))
  }

  function Find(v: Volume, n: nat, name: string): Outcome<nat> {
    var es :- DirectoryEntries(v, n);
    Lookup(es, name)
  }

  /** The name of a directory leads to the record number in the first six bytes of its first entry. */
  lemma FindReadsReference(v: Volume, dir: nat, name: string, at: nat, n: nat, q: U16)
    requires Stat(v, dir).Success? && IndexData(v, dir, Stat(v, dir).value).Success?
    requires NameRefers(IndexData(v, dir, Stat(v, dir).value).value, name, at, n, q)
    ensures Find(v, dir, name) == Success(n)
  {
    hide Stat, IndexData, NameRefers, Lookup, Entries;
    FindGives(IndexData(v, dir, Stat(v, dir).value).value, name, at, n, q);
  }

  /** Where an extent is read from. This is the one place where an offset on the device is divided by 512. */
  function ReadOffset(v: Volume, cluster: nat): nat {
    cluster * v.clusterSize / 512
  }

  /** Reading extents one after another, with checked products; a buffer has fewer than 2^63 bytes. */
  function ReadExtents(v: Volume, extents: Extents): Outcome<seq<Byte>> {
    if extents == [] then Success([])
    else
      var (cluster, length) := extents[0];
      var size := length * v.clusterSize;
      if cluster * v.clusterSize >= 0x1_0000_0000_0000_0000 || size >= I64_LIMIT then Failure(Panicked)
      else
        match v.disk.Read(ReadOffset(v, cluster), size)
        case None => Failure(IoError)
        case Some(data) =>
          var rest :- ReadExtents(v, extents[1..]);
          Success(data + rest)
  }

  function ReadRun(v: Volume, run: DataRun): Outcome<seq<Byte>> {
    match run
    case Resident(data) => Success(data)
    case NonResident(extents) => ReadExtents(v, extents)
  }

  /** The contents that a file's data runs lead to. */
  function Contents(v: Volume, runs: seq<DataRun>): Outcome<seq<Byte>> {
    if runs == [] then Success([])
    else
      var first :- ReadRun(v, runs[0]);
      var rest :- Contents(v, runs[1..]);
      Success(first + rest)
  }

  function ReadFileAll(v: Volume, n: nat): Outcome<seq<Byte>> {
    var st :- Stat(v, n);
    if st.isDirectory then Failure(NotAFile) else Contents(v, st.dataRuns)
  }

  /** Where a record is read, and what is made of it. */
  lemma ReadRecordIs(v: Volume, n: nat, at: nat)
    requires at == v.mftOffset + n * v.recordSize
    ensures !v.disk.CanRead(at, v.recordSize) ==> ReadRecord(v, n) == Failure(IoError)
    ensures v.disk.CanRead(at, v.recordSize) ==>
              var raw := v.disk.bytes[at..at + v.recordSize];
              ReadRecord(v, n) == if |raw| < 4 then Failure(Panicked)
                                  else if raw[0..4] != [0x46, 0x49, 0x4C, 0x45] then Failure(InvalidMftRecord)
                                  else ApplyFixups(raw, v.sector)
  {
  }

  // ----- Writing

  /** A readable slot whose signature is neither of the two in use. */
  predicate IsFree(v: Volume, n: nat) {
    match v.disk.Read(v.Slot(n), v.recordSize)
    case None => false
    case Some(buf) => |buf| >= 4 && buf[0..4] != FILE_SIGNATURE && buf[0..4] != BAAD_SIGNATURE
  }

  /** A slot is free exactly when it can be read and starts with neither of the two signatures. */
  lemma IsFreeIff(v: Volume, n: nat, at: nat)
    requires at == v.mftOffset + n * v.recordSize
    ensures IsFree(v, n) <==>
            && v.disk.CanRead(at, v.recordSize) && v.recordSize >= 4
            && v.disk.bytes[at..at + 4] != [0x46, 0x49, 0x4C, 0x45]
            && v.disk.bytes[at..at + 4] != [0x42, 0x41, 0x41, 0x44]
  {
    if v.disk.CanRead(at, v.recordSize) && v.recordSize >= 4 {
      assert v.disk.bytes[at..at + v.recordSize][0..4] == v.disk.bytes[at..at + 4];
    }
  }

  /** The scan for a new record covers the slots from 16 up to 100000. */
  lemma {:induction false} ScanIs(v: Volume, n: nat)
    ensures AllocateFrom(v, START_SCAN) == Success(n) <==>
            16 <= n < 100000 && IsFree(v, n) && forall k | 16 <= k < n :: !IsFree(v, k)
    ensures AllocateFrom(v, START_SCAN).Failure? <==> forall k | 16 <= k < 100000 :: !IsFree(v, k)
  {
    hide IsFree;
  }

  /** The first free slot from `n` on; looking at the signature of a record shorter than one fails. */
  function AllocateFrom(v: Volume, n: nat): (r: Outcome<nat>)
    ensures r.Success? ==> n <= r.value < MAX_SCAN && IsFree(v, r.value) && forall k | n <= k < r.value :: !IsFree(v, k)
    ensures r.Failure? ==> forall k | n <= k < MAX_SCAN :: !IsFree(v, k)
    decreases MAX_SCAN - n
  {
    if n >= MAX_SCAN then Failure(NoSpace)
    else if v.recordSize < 4 && v.disk.CanRead(v.Slot(n), v.recordSize) then Failure(Panicked)
    else if IsFree(v, n) then Success(n)
    else AllocateFrom(v, n + 1)
  }

  /** Adds fixups to a record and writes it to its slot. */
  function PutRecord(v: Volume, n: nat, record: seq<Byte>): (Outcome<()>, Volume) {
    match ReapplyFixups(record, v.sector)
    case Failure(e) => (Failure(e), v)
    case Success(w) =>
      if v.disk.CanWrite(v.Slot(n), |w|) then (Success(()), v.Write(v.Slot(n), w)) else (Failure(IoError), v)
  }

  /** Adds an entry to the external index of a directory. The block is addressed from the start of the device. */
  function AddExternal(v: Volume, record: seq<Byte>, e: seq<Byte>): (Outcome<()>, Volume) {
    match IndexBlock(record, v.PartitionSize(), v.clusterSize)
    case Failure(error) => (Failure(error), v)
    case Success((at, size)) =>
      match v.disk.Read(at, size)
      case None => (Failure(IoError), v)
      case Some(b) =>
        match BlockEdited(b, e)
        case Failure(error) => (Failure(error), v)
        case Success(w) =>
          if v.disk.CanWrite(at, |w|) then (Success(()), v.Write(at, w)) else (Failure(IoError), v)
  }

  /** Adds an entry to the index in the record, or, if there is no room and the directory has one, to the external
      index. */
  function AddDirectoryEntry(v: Volume, parent: nat, child: nat, name: string): (Outcome<()>, Volume) {
    match ReadRecord(v, parent)
    case Failure(e) => (Failure(e), v)
    case Success(record) =>
      match AddEntry(record, EntryBytes(child, parent, Utf16(name)))
      case Failure(error) =>
        if error == NoSpace && FindAttribute(record, INDEX_ALLOCATION).Success?
        then AddExternal(v, record, EntryBytes(child, parent, Utf16(name))) else (Failure(error), v)
      case Success(edited) => PutRecord(v, parent, edited)
  }

  /** Everything that is checked before anything is written. */
  function Prepare(v: Volume, parent: nat, name: string, isDirectory: bool, data: seq<Byte>)
    : (r: Outcome<(nat, seq<Byte>)>)
  {
    var dir :- IsDirectory(v, parent);
    if !dir then Failure(NotADirectory)
    else
      var found := Find(v, parent, name);
      if found.Success? then Failure(AlreadyExists)
      else if found.error != FileNotFound then Failure(found.error)
      else if Utf8Length(name) > 255 then Failure(NameTooLong)
      else
        var n :- AllocateFrom(v, START_SCAN);
        var record :- BuildRecord(v.recordSize, n, name, parent, isDirectory, data);
        Success((n, record))
  }

  /** Creates a file or directory: the new record goes to disk before the parent's index, and stays
      there if the parent cannot take the name. */
  function CreateFile(v: Volume, parent: nat, name: string, isDirectory: bool, data: seq<Byte>)
    : (Outcome<nat>, Volume)
  {
    match Prepare(v, parent, name, isDirectory, data)
    case Failure(e) => (Failure(e), v)
    case Success((n, record)) =>
      var (put, v1) := PutRecord(v, n, record);
      if put.Failure? then (Failure(put.error), v1)
      else
        var (added, v2) := AddDirectoryEntry(v1, parent, n, name);
        if added.Failure? then (Failure(added.error), v2)
        else
          var back := ReadRecord(v2, n);
          (if back.Failure? then Failure(back.error) else Success(n), v2)
  }

  /** Overwrites the contents of a resident file with data of the same length. */
  function WriteResidentFile(v: Volume, n: nat, data: seq<Byte>): (Outcome<()>, Volume) {
    match Rewritten(v, n, data)
    case Failure(e) => (Failure(e), v)
    case Success(record) => PutRecord(v, n, record)
  }

  function Rewritten(v: Volume, n: nat, data: seq<Byte>): Outcome<seq<Byte>> {
    var st :- Stat(v, n);
    if st.dataRuns == [] || st.dataRuns[0].NonResident? || |data| != |st.dataRuns[0].data|
    then Failure(InvalidAttribute)
    else
      var record :- ReadRecord(v, n);
      var at :- FindAttribute(record, DATA);
      UpdateResident(record, at, data)
  }
}
