/** Formatting a disk with an EFI system partition and an NTFS partition, and reporting a disk. */
module GptManager {
  import opened Wrappers
  import opened Text
  import opened Arithmetic
  import opened Bytes
  import opened BlockStorage
  import opened Crc32
  import opened GptFormat
  import opened GptRead
  import opened GptWrite
  import opened GptTheorems

  const ESP_GUID: Guid := [0x28, 0x73, 0x2A, 0xC1, 0x1F, 0xF8, 0xD2, 0x11,
                           0xBA, 0x4B, 0x00, 0xA0, 0xC9, 0x3E, 0xC9, 0x3B]
  const NTFS_GUID: Guid := [0xA2, 0xA0, 0xD0, 0xEB, 0xE5, 0xB9, 0x33, 0x44,
                            0x87, 0xC0, 0x68, 0xB6, 0xB7, 0x26, 0x99, 0xC7]
  const ESP_SIZE_SECTORS: nat := 1_048_576

  /** Where the two partitions go, in blocks. */
  datatype Partitions = Partitions(espStart: nat, espSize: nat, ntfsStart: nat, ntfsSize: nat)

  datatype PartitionKind = Esp | Ntfs | Unknown

  datatype PartitionInfo = PartitionInfo(
    kind: PartitionKind, typeGuid: Guid, uniqueGuid: Guid, startLba: nat, endLba: nat,
    sizeBytes: nat, attributes: nat, name: string)

  datatype GptInfo = GptInfo(
    diskGuid: Guid, sectorSize: nat, totalSectors: nat, firstUsableLba: nat, lastUsableLba: nat,
    partitions: seq<PartitionInfo>)

  // ----- Names

  /** The first 36 units of a name of one-unit characters, zero-padded. */
  function NameUnits(s: seq<U16>): Units {
    seq(36, i requires 0 <= i < 36 => if i < |s| then s[i] else 0)
  }

  function Ascii(s: string): (units: seq<U16>)
    requires IsAscii(s)
    ensures |units| == |s|
  {
    seq(|s|, i requires 0 <= i < |s| => s[i] as int)
  }

  /** The ASCII characters before the first zero unit. */
  function NameOf(units: seq<U16>): string {
    if units == [] || units[0] == 0 then []
    else (if units[0] < 128 then [units[0] as char] else []) + NameOf(units[1..])
  }

  lemma {:induction false} NameOfPadded(s: string, pad: nat)
    requires IsAscii(s)
    ensures NameOf(Ascii(s) + seq(pad, _ => 0)) == s
  {
    var u := Ascii(s) + seq(pad, _ => 0);
    if s != [] {
      assert u[1..] == Ascii(s[1..]) + seq(pad, _ => 0);
      NameOfPadded(s[1..], pad);
      assert s == [s[0]] + s[1..];
    }
  }

  /** A name of at most 36 non-NUL ASCII characters survives being stored. */
  lemma NameRoundTrip(s: string)
    requires |s| <= 36 && IsAscii(s)
    ensures NameOf(NameUnits(Ascii(s))) == s
  {
    assert NameUnits(Ascii(s)) == Ascii(s) + seq(36 - |s|, _ => 0);
    NameOfPadded(s, 36 - |s|);
  }

  // ----- Formatting

  function Arrange(total: nat, wanted: nat): Result<Partitions, GptError> {
    if total < ESP_SIZE_SECTORS + 128 then Failure(NoSpace)
    else
      var lastUsable := SaturatingSub(total, GPT_RESERVED_LBAS + 1);
      if lastUsable - GPT_FIRST_USABLE_LBA < ESP_SIZE_SECTORS + 1 then Failure(NoSpace)
      else
        var ntfsStart := GPT_FIRST_USABLE_LBA + ESP_SIZE_SECTORS;
        var available := lastUsable - ntfsStart;
        Success(Partitions(GPT_FIRST_USABLE_LBA, ESP_SIZE_SECTORS, ntfsStart,
                           if wanted == 0 || wanted > available then available else wanted))
  }

  const ESP_NAME: string := "EFI System"
  const NTFS_NAME: string := "Userspace"

  function Entry(typeGuid: Guid, uniqueGuid: Guid, start: nat, size: nat, name: string): GptEntry
    requires 0 < size && start + size < LIMIT && IsAscii(name)
  {
    GptEntry(typeGuid, uniqueGuid, start, start + size - 1, 0, NameUnits(Ascii(name)))
  }

  function FormatEntries(p: Partitions, guids: (Guid, Guid)): (es: seq<GptEntry>)
    requires 0 < p.espSize && 0 < p.ntfsSize && p.espStart + p.espSize < LIMIT && p.ntfsStart + p.ntfsSize < LIMIT
    ensures |es| == 2
  {
    [ Entry(ESP_GUID, guids.0, p.espStart, p.espSize, ESP_NAME),
      Entry(NTFS_GUID, guids.1, p.ntfsStart, p.ntfsSize, NTFS_NAME) ]
  }

  /** `guids` and `diskGuid` are what the generator hands out for this call. */
  method FormatDisk(crcTable: array<U32>, dev: BlockDevice, wanted: nat, guids: (Guid, Guid), diskGuid: Guid)
    returns (r: Result<Partitions, GptError>)
    requires IsTable(crcTable[..]) && dev.blockCount < LIMIT
    modifies dev`content
    ensures (r, dev.State()) == FormatOutcome(old(dev.State()), wanted, guids, diskGuid)
  {
    var arranged := Arrange(dev.blockCount, wanted);
    if arranged.Failure? {
      return arranged;
    }
    var w := WriteGpt(crcTable, dev, FormatEntries(arranged.value, guids), diskGuid);
    if w.Failure? {
      return w.PropagateFailure();
    }
    return arranged;
  }

  function FormatOutcome(d: Disk, wanted: nat, guids: (Guid, Guid), diskGuid: Guid)
    : (Result<Partitions, GptError>, Disk)
    requires d.blockCount < LIMIT
  {
    match Arrange(d.blockCount, wanted)
    case Failure(e) => (Failure(e), d)
    case Success(p) =>
      var (w, d') := WriteOutcome(d, FormatEntries(p, guids), diskGuid);
      (if w.Success? then Success(p) else Failure(w.error), d')
  }

  // ----- Reporting

  function KindOf(g: Guid): PartitionKind {
    if g == ESP_GUID then Esp else if g == NTFS_GUID then Ntfs else Unknown
  }

  /** Partition sizes are computed in checked 64-bit arithmetic. */
  function Describe(e: GptEntry, sectorSize: nat): Result<PartitionInfo, GptError> {
    if e.endLba < e.startLba || (e.endLba - e.startLba + 1) * sectorSize >= LIMIT then Failure(Panicked)
    else Success(PartitionInfo(KindOf(e.typeGuid), e.typeGuid, e.uniqueGuid, e.startLba, e.endLba,
                               (e.endLba - e.startLba + 1) * sectorSize, e.attributes, NameOf(e.name)))
  }

  /** An entry can be described exactly when it is not empty and its size in bytes fits 64 bits. */
  lemma DescribeIff(e: GptEntry, sectorSize: nat, size: int)
    requires size == (e.endLba - e.startLba + 1) * sectorSize
    ensures Describe(e, sectorSize).Success? <==> e.startLba <= e.endLba && size < 0x1_0000_0000_0000_0000
    ensures Describe(e, sectorSize).Success? ==>
              var p := Describe(e, sectorSize).value;
              && p.typeGuid == e.typeGuid && p.uniqueGuid == e.uniqueGuid && p.attributes == e.attributes
              && p.startLba == e.startLba && p.endLba == e.endLba && p.sizeBytes == size && p.name == NameOf(e.name)
  {
  }

  /** Unused entries, those with an all-zero type, are skipped. */
  function DescribeAll(entries: seq<GptEntry>, sectorSize: nat): Result<seq<PartitionInfo>, GptError> {
    if entries == [] then Success([])
    else if entries[0].typeGuid == Zeros(16) then DescribeAll(entries[1..], sectorSize)
    else
      var first :- Describe(entries[0], sectorSize);
      var rest :- DescribeAll(entries[1..], sectorSize);
      Success([first] + rest)
  }

  function DiskInfo(d: Disk): Result<GptInfo, GptError> {
    var (h, entries) :- GptOf(d);
    var partitions :- DescribeAll(entries, d.blockSize);
    Success(GptInfo(h.diskGuid, d.blockSize, d.blockCount, h.firstUsableLba, h.lastUsableLba, partitions))
  }

  /** Offsets are computed in checked 64-bit arithmetic. */
  function Offset(at: nat): Result<nat, GptError> {
    if at < LIMIT then Success(at) else Failure(Panicked)
  }

  /** The byte offset of the first partition of a type. */
  method FindOffset(crcTable: array<U32>, dev: BlockDevice, typeGuid: Guid) returns (r: Result<nat, GptError>)
    requires IsTable(crcTable[..])
    ensures match GptOf(dev.State())
            case Failure(e) => r == Failure(e)
            case Success((_, entries)) =>
              if forall e | e in entries :: e.typeGuid != typeGuid then r == Failure(NotFound)
              else
                exists i | 0 <= i < |entries| ::
                  && entries[i].typeGuid == typeGuid
                  && (var at := entries[i].startLba * dev.blockSize;
                      r == if at < 0x1_0000_0000_0000_0000 then Success(at) else Failure(Panicked))
                  && forall j | 0 <= j < i :: entries[j].typeGuid != typeGuid
  {
    hide GptOf, IsTable;
    var table := ReadGpt(crcTable, dev);
    if table.Failure? {
      return table.PropagateFailure();
    }
    var entries := table.value.1;
    for i := 0 to |entries|
      invariant forall j | 0 <= j < i :: entries[j].typeGuid != typeGuid
    {
      if entries[i].typeGuid == typeGuid {
        assert entries[i] in entries;
        return Offset(dev.State().At(entries[i].startLba));
      }
    }
    return Failure(NotFound);
  }

  /** Where the partitions go, in numbers: 512 MB of 512-byte blocks from block 34 on, and behind them what was asked
      for or all that is left up to the last usable block but one. */
  lemma ArrangeIs(total: nat, wanted: nat)
    ensures total < 1_048_704 ==> Arrange(total, wanted) == Failure(NoSpace)
    ensures total >= 1_048_704 ==>
              var rest: nat := total - 34 - 1_048_610;
              Arrange(total, wanted) == Success(Partitions(34, 1_048_576, 1_048_610,
                                                           if 0 < wanted <= rest then wanted else rest))
  {
  }

  /** A type identifier from the groups of its text form; the first three are stored with the lowest byte first. */
  ghost function FromText(a: U32, b: U16, c: U16, rest: seq<Byte>): seq<Byte> {
    LE(4, a) + LE(2, b) + LE(2, c) + rest
  }

  lemma EspFromText()
    ensures ESP_GUID == FromText(0xC12A_7328, 0xF81F, 0x11D2, [0xBA, 0x4B, 0x00, 0xA0, 0xC9, 0x3E, 0xC9, 0x3B])
  {
    hide LE;
    LEIs(0xC12A_7328);
    assert LE(4, 0xC12A_7328) == [0x28, 0x73, 0x2A, 0xC1];
    LEIs(0xF81F);
    LEIs(0x11D2);
  }

  lemma NtfsFromText()
    ensures NTFS_GUID == FromText(0xEBD0_A0A2, 0xB9E5, 0x4433, [0x87, 0xC0, 0x68, 0xB6, 0xB7, 0x26, 0x99, 0xC7])
  {
    hide LE;
    LEIs(0xEBD0_A0A2);
    LEIs(0xB9E5);
    LEIs(0x4433);
  }

  /** The two entries: of the types EFI system partition (section 5.3.3 of the UEFI Specification) and basic data
      partition, with the two names padded with zeros. */
  lemma FormattedEntries(p: Partitions, guids: (Guid, Guid))
    requires 0 < p.espSize && 0 < p.ntfsSize && p.espStart + p.espSize < LIMIT && p.ntfsStart + p.ntfsSize < LIMIT
    ensures var es := FormatEntries(p, guids);
      && es[0].typeGuid == FromText(0xC12A_7328, 0xF81F, 0x11D2, [0xBA, 0x4B, 0x00, 0xA0, 0xC9, 0x3E, 0xC9, 0x3B])
      && es[1].typeGuid == FromText(0xEBD0_A0A2, 0xB9E5, 0x4433, [0x87, 0xC0, 0x68, 0xB6, 0xB7, 0x26, 0x99, 0xC7])
      && es[0].uniqueGuid == guids.0 && es[1].uniqueGuid == guids.1
      && es[0].startLba == p.espStart && es[0].endLba == p.espStart + p.espSize - 1 && es[0].attributes == 0
      && es[1].startLba == p.ntfsStart && es[1].endLba == p.ntfsStart + p.ntfsSize - 1 && es[1].attributes == 0
      && (forall i | 0 <= i < 36 :: es[0].name[i] == if i < 10 then "EFI System"[i] as int else 0)
      && (forall i | 0 <= i < 36 :: es[1].name[i] == if i < 9 then "Userspace"[i] as int else 0)
  {
    hide FromText, ESP_GUID, NTFS_GUID;
    EspFromText();
    NtfsFromText();
  }

  // ----- What formatting leaves behind

  /** The two partitions are non-empty and adjacent, lie in the usable range that the header
      records, and keep clear of the primary entry array and of the backup array and header. */
  ghost predicate WellPlaced(p: Partitions, d: Disk)
    requires d.blockSize > 0
  {
    && p.espSize == ESP_SIZE_SECTORS && p.ntfsSize > 0
    && p.ntfsStart == p.espStart + p.espSize
    && 34 <= p.espStart && p.ntfsStart + p.ntfsSize - 1 <= d.blockCount - 34
    && EntriesEnd(d.blockSize, 2) <= p.espStart
    && p.ntfsStart + p.ntfsSize - 1 < d.blockCount - 33
  }

  ghost function InfoOf(kind: PartitionKind, typeGuid: Guid, uniqueGuid: Guid, start: nat, size: nat, name: string,
                        sectorSize: nat): PartitionInfo
    requires size > 0
  {
    PartitionInfo(kind, typeGuid, uniqueGuid, start, start + size - 1, size * sectorSize, 0, name)
  }

  ghost function Expected(p: Partitions, guids: (Guid, Guid), sectorSize: nat): (r: seq<PartitionInfo>)
    requires 0 < p.espSize && 0 < p.ntfsSize
    ensures |r| == 2
  {
    [ InfoOf(Esp, ESP_GUID, guids.0, p.espStart, p.espSize, ESP_NAME, sectorSize),
      InfoOf(Ntfs, NTFS_GUID, guids.1, p.ntfsStart, p.ntfsSize, NTFS_NAME, sectorSize) ]
  }

  lemma ArrangeFits(d: Disk, wanted: nat)
    requires Sound(d)
    ensures Arrange(d.blockCount, wanted).Success? <==> d.blockCount >= ESP_SIZE_SECTORS + 128
    ensures Arrange(d.blockCount, wanted).Success? ==>
      var p := Arrange(d.blockCount, wanted).value;
      Fits(d, 2) && EntriesEnd(d.blockSize, 2) == 3 && p.ntfsStart + p.ntfsSize <= d.blockCount - 34
  {
    BlocksBelowBytes(d);
    DivModUnique(2 * 128 + d.blockSize - 1, d.blockSize, 1, 255);
  }

  lemma BlocksBelowBytes(d: Disk)
    requires Sound(d)
    ensures 512 * d.blockCount <= |d.bytes|
  {
  }

  lemma DescribesEntry(typeGuid: Guid, uniqueGuid: Guid, start: nat, size: nat, name: string, d: Disk)
    requires Sound(d) && 0 < size && start + size <= d.blockCount < LIMIT
    requires |name| <= 36 && IsAscii(name)
    ensures start + size < LIMIT
    ensures Describe(Entry(typeGuid, uniqueGuid, start, size, name), d.blockSize) ==
            Success(InfoOf(KindOf(typeGuid), typeGuid, uniqueGuid, start, size, name, d.blockSize))
  {
    NameRoundTrip(name);
    AtMonotone(d, size, d.blockCount);
  }

  lemma KnownTypes()
    ensures KindOf(ESP_GUID) == Esp && KindOf(NTFS_GUID) == Ntfs
    ensures ESP_GUID != Zeros(16) && NTFS_GUID != Zeros(16)
  {
    assert ESP_GUID[0] == 0x28 && NTFS_GUID[0] == 0xA2 && Zeros(16)[0] == 0;
  }

  lemma {:induction false} DescribesPair(a: GptEntry, b: GptEntry, sectorSize: nat)
    requires a.typeGuid != Zeros(16) && b.typeGuid != Zeros(16)
    requires Describe(a, sectorSize).Success? && Describe(b, sectorSize).Success?
    ensures DescribeAll([a, b], sectorSize) ==
            Success([Describe(a, sectorSize).value, Describe(b, sectorSize).value])
  {
    hide Describe;
    assert [a, b][1..] == [b] && [b][1..] == [];
    var x, y := Describe(a, sectorSize).value, Describe(b, sectorSize).value;
    assert [y] + [] == [y] && [x] + [y] == [x, y];
    assert DescribeAll([b], sectorSize) == Success([y]);
  }

  lemma DescribesFormatted(p: Partitions, guids: (Guid, Guid), d: Disk)
    requires Sound(d) && p.espSize > 0 && p.ntfsSize > 0 && d.blockCount < LIMIT
    requires p.espStart + p.espSize <= d.blockCount && p.ntfsStart + p.ntfsSize <= d.blockCount
    ensures DescribeAll(FormatEntries(p, guids), d.blockSize) == Success(Expected(p, guids, d.blockSize))
  {
    DescribesEntry(ESP_GUID, guids.0, p.espStart, p.espSize, ESP_NAME, d);
    DescribesEntry(NTFS_GUID, guids.1, p.ntfsStart, p.ntfsSize, NTFS_NAME, d);
    KnownTypes();
    hide Describe, KindOf, InfoOf, DescribeAll;
    DescribesPair(FormatEntries(p, guids)[0], FormatEntries(p, guids)[1], d.blockSize);
  }

  /** A successful format of a disk with 512- to 4096-byte blocks is reported as exactly the two
      partitions, well placed; the NTFS partition has the wanted size if there is room for it. */
  lemma FormatThenReport(d: Disk, wanted: nat, guids: (Guid, Guid), diskGuid: Guid)
    requires Sound(d) && PrimaryReadable(d, 2)
    ensures d.blockCount < LIMIT
    ensures var (r, e) := FormatOutcome(d, wanted, guids, diskGuid);
      r.Success? ==>
        && WellPlaced(r.value, d)
        && r.value.ntfsSize == Granted(wanted, d.blockCount - 68 - ESP_SIZE_SECTORS)
        && DiskInfo(e) == Success(GptInfo(diskGuid, d.blockSize, d.blockCount, 34, d.blockCount - 34,
                                          Expected(r.value, guids, d.blockSize)))
  {
    hide DescribeAll, Fits, EntriesEnd, GptOf, Expected, WriteOutcome, DiskInfo, FormatEntries, Disk.At;
    BlocksBelowBytes(d);
    ArrangeFits(d, wanted);
    if Arrange(d.blockCount, wanted).Success? {
      var p := Arrange(d.blockCount, wanted).value;
      DescribesFormatted(p, guids, d);
      FormattedInfo(d, FormatEntries(p, guids), diskGuid);
    }
  }

  lemma {:induction false} FormattedInfo(d: Disk, entries: seq<GptEntry>, diskGuid: Guid)
    requires Sound(d) && |entries| == 2 && Fits(d, 2) && PrimaryReadable(d, 2)
    requires DescribeAll(entries, d.blockSize).Success?
    ensures var (w, e) := WriteOutcome(d, entries, diskGuid);
      w.Success? ==>
        DiskInfo(e) == Success(GptInfo(diskGuid, d.blockSize, d.blockCount, 34, d.blockCount - 34,
                                       DescribeAll(entries, d.blockSize).value))
  {
    var k := OutcomeIsPrefix(d, entries, diskGuid);
    hide WriteOutcome, GptOf, DescribeAll, Interrupted, Crc, SerializeEntries, HeaderBytes;
    WrittenTableRead(d, entries, diskGuid);
  }

  ghost function Granted(wanted: nat, available: int): int {
    if wanted == 0 || wanted > available then available else wanted
  }
}
