/** Mounting: the geometry in a boot sector, and the boot sector the partition manager writes. */
module NtfsBoot {
  import opened Wrappers
  import opened Bytes
  import opened BlockStorage
  import opened NtfsTypes
  import opened NtfsPaths
  import opened NtfsVolume

  const OEM_ID: seq<Byte> := [0x4E, 0x54, 0x46, 0x53, 0x20, 0x20, 0x20, 0x20]
  const JUMP: seq<Byte> := [0xEB, 0x52, 0x90]
  const SERIAL: U64 := 0x1234_5678_9ABC_DEF0
  const SECTOR: nat := 512

  datatype BootSector = BootSector(bytesPerSector: U16, sectorsPerCluster: Byte, totalSectors: U64,
                                   mftStartCluster: U64, clustersPerRecord: int)
  {
    function BytesPerCluster(): nat {
      bytesPerSector * sectorsPerCluster
    }

    function MftByteOffset(partition: nat): nat {
      partition + mftStartCluster * BytesPerCluster()
    }

    /** A positive field counts clusters; otherwise it is the negated binary logarithm of the size. */
    function RecordSize(): Outcome<nat> {
      if clustersPerRecord > 0 then Success(clustersPerRecord * BytesPerCluster())
      else if -clustersPerRecord >= 64 then Failure(Panicked)
      else Success(Pow2(-clustersPerRecord))
    }
  }

  function AsI8(b: Byte): int {
    if b < 128 then b else b - 256
  }

  function ParseBoot(buf: seq<Byte>): Outcome<BootSector>
    requires |buf| == SECTOR
  {
    if buf[3..11] != OEM_ID || buf[510] != 0x55 || buf[511] != 0xAA then Failure(InvalidBootSector)
    else Success(BootSector(ReadU16(buf, 11), buf[13], ReadU64(buf, 40), ReadU64(buf, 48), AsI8(buf[64])))
  }

  function Mount(disk: Disk, partition: nat): Outcome<Volume> {
    match disk.Read(partition, SECTOR)
    case None => Failure(IoError)
    case Some(buf) =>
      var boot :- ParseBoot(buf);
      var size :- boot.RecordSize();
      Success(Volume(disk, boot.MftByteOffset(partition), boot.bytesPerSector, boot.BytesPerCluster(), size,
                     boot.totalSectors))
  }

  /** The fields of a boot sector that mounting looks at; the record size is a byte. */
  datatype Geometry = Geometry(bytesPerSector: U16, sectorsPerCluster: Byte, totalSectors: U64,
                               mftStartCluster: U64, recordField: Byte)

  /** The sector is one of this file system and carries the geometry. */
  ghost predicate Carries(buf: seq<Byte>, g: Geometry)
    requires |buf| == 512
  {
    && buf[3..11] == [0x4E, 0x54, 0x46, 0x53, 0x20, 0x20, 0x20, 0x20] && buf[510] == 0x55 && buf[511] == 0xAA
    && buf[11..13] == LE(2, g.bytesPerSector) && buf[13] == g.sectorsPerCluster
    && buf[40..48] == LE(8, g.totalSectors) && buf[48..56] == LE(8, g.mftStartCluster) && buf[64] == g.recordField
  }

  /** The size of a record that a value of the field stands for: up to 127 the number of clusters, from 193 on a
      power of two, so that 0xF6 is 1024 bytes; what lies between would be a shift of 64 bits or more. */
  ghost predicate RecordSizeIs(field: Byte, cluster: nat, size: Outcome<nat>) {
    && (field == 0 ==> size == Success(1))
    && (1 <= field <= 127 ==> size == Success(field * cluster))
    && (128 <= field <= 192 ==> size == Failure(Panicked))
    && (193 <= field <= 255 ==> size == Success(Pow2(256 - field)))
    && (field == 0xF6 ==> size == Success(1024))
  }

  lemma RecordSizes(boot: BootSector, field: Byte)
    requires boot.clustersPerRecord == AsI8(field)
    ensures RecordSizeIs(field, boot.bytesPerSector * boot.sectorsPerCluster, boot.RecordSize())
  {
    assert Pow2(10) == 1024;
  }

  lemma ParseCarried(buf: seq<Byte>, g: Geometry)
    requires |buf| == 512 && Carries(buf, g)
    ensures ParseBoot(buf) == Success(BootSector(g.bytesPerSector, g.sectorsPerCluster, g.totalSectors,
                                                 g.mftStartCluster, AsI8(g.recordField)))
  {
    hide LE, Value;
    Widths();
    ValueFits(2, g.bytesPerSector);
    ValueFits(8, g.totalSectors);
    ValueFits(8, g.mftStartCluster);
  }

  /** A boot sector that carries a geometry mounts as that geometry, unless the record size cannot be computed. */
  lemma MountReads(disk: Disk, partition: nat, g: Geometry, cluster: nat, start: nat)
    requires disk.CanRead(partition, 512) && Carries(disk.bytes[partition..partition + 512], g)
    requires cluster == g.bytesPerSector * g.sectorsPerCluster && start == partition + g.mftStartCluster * cluster
    ensures var mounted := Mount(disk, partition);
      && (128 <= g.recordField <= 192 <==> mounted.Failure?)
      && (mounted.Failure? ==> mounted.error == Panicked)
      && (mounted.Success? ==>
            var v := mounted.value;
            && RecordSizeIs(g.recordField, cluster, Success(v.recordSize))
            && v == Volume(disk, start, g.bytesPerSector, cluster, v.recordSize, g.totalSectors))
  {
    hide Carries, ParseBoot, RecordSizeIs, BootSector.RecordSize;
    var boot := BootSector(g.bytesPerSector, g.sectorsPerCluster, g.totalSectors, g.mftStartCluster,
                           AsI8(g.recordField));
    ParseCarried(disk.bytes[partition..partition + 512], g);
    RecordSizes(boot, g.recordField);
    RecordSizeDecided(g.recordField, cluster, boot.RecordSize());
  }

  lemma RecordSizeDecided(field: Byte, cluster: nat, size: Outcome<nat>)
    requires RecordSizeIs(field, cluster, size)
    ensures 128 <= field <= 192 <==> size.Failure?
    ensures size.Failure? ==> size.error == Panicked
  {
  }

  // ----- The boot sector the partition manager writes

  /** The bytes of the sector: eight sectors a cluster, the file table at cluster 2, no record size. */
  function BootBytes(totalSectors: U64, sectorSize: nat): (s: seq<Byte>)
    requires sectorSize >= SECTOR
    ensures |s| == sectorSize
  {
    JUMP + OEM_ID + LE(2, sectorSize) + [8] + Zeros(26) + LE(8, totalSectors) + LE(8, 2) + Zeros(16) + LE(8, SERIAL)
    + Zeros(430) + [0x55, 0xAA] + Zeros(sectorSize - SECTOR)
  }

  method CreateBootSector(totalSectors: U64, sectorSize: nat) returns (r: Option<seq<Byte>>)
    ensures r == if sectorSize < SECTOR then None else Some(BootBytes(totalSectors, sectorSize))
  {
    if sectorSize < SECTOR {
      return None;
    }
    var boot := new Byte[sectorSize](_ => 0);
    PutNext(boot, [], 0, JUMP);
    PutNext(boot, JUMP, 3, OEM_ID);
    PutNext(boot, JUMP + OEM_ID, 11, LE(2, sectorSize));
    ghost var head := JUMP + OEM_ID + LE(2, sectorSize);
    PutNext(boot, head, 13, [8]);
    SkipZeros(head + [8], 26, sectorSize - 40);
    PutNext(boot, head + [8] + Zeros(26), 40, LE(8, totalSectors));
    PutNext(boot, head + [8] + Zeros(26) + LE(8, totalSectors), 48, LE(8, 2));
    ghost var middle := head + [8] + Zeros(26) + LE(8, totalSectors) + LE(8, 2);
    SkipZeros(middle, 16, sectorSize - 72);
    PutNext(boot, middle + Zeros(16), 72, LE(8, SERIAL));
    SkipZeros(middle + Zeros(16) + LE(8, SERIAL), 430, sectorSize - 510);
    PutNext(boot, middle + Zeros(16) + LE(8, SERIAL) + Zeros(430), 510, [0x55, 0xAA]);
    return Some(boot[..]);
  }

  lemma SkipZeros(s: seq<Byte>, n: nat, m: nat)
    ensures s + Zeros(n + m) == s + Zeros(n) + Zeros(m)
  {
  }

  /** What mounting makes of it. The sector size is truncated to sixteen bits. */
  lemma ParseCreated(totalSectors: U64, sectorSize: nat)
    requires sectorSize >= SECTOR
    ensures ParseBoot(BootBytes(totalSectors, sectorSize)[..SECTOR])
         == Success(BootSector(sectorSize % 0x1_0000, 8, totalSectors, 2, 0))
  {
    hide LE, Value;
    var b := BootBytes(totalSectors, sectorSize);
    var s := b[..SECTOR];
    var tail := Zeros(16) + LE(8, SERIAL) + Zeros(430) + [0x55, 0xAA];
    assert s == JUMP + OEM_ID + LE(2, sectorSize) + [8] + Zeros(26) + LE(8, totalSectors) + LE(8, 2) + tail;
    assert s[3..11] == OEM_ID && s[11..13] == LE(2, sectorSize) && s[13] == 8;
    assert s[40..48] == LE(8, totalSectors) && s[48..56] == LE(8, 2);
    assert s[64] == 0 && s[510] == 0x55 && s[511] == 0xAA;
    Widths();
    ValueOfLE(2, sectorSize);
    ValueFits(8, 2);
    ValueFits(8, totalSectors);
  }

  lemma ShortRecordsFail(v: Volume, n: nat)
    requires v.recordSize < 4
    ensures ReadRecord(v, n).Failure?
  {
  }

  /** The boot sector the partition manager writes does not say how large a record is, and a driver that mounts
      it takes records to be one byte long: the mount succeeds, but no record can be read and no path other than
      the root's opens. */
  lemma CreatedVolumeIsUnreadable(disk: Disk, partition: nat, totalSectors: U64, sectorSize: nat, n: nat, path: string)
    requires sectorSize >= SECTOR && disk.CanRead(partition, SECTOR)
    requires disk.bytes[partition..partition + SECTOR] == BootBytes(totalSectors, sectorSize)[..SECTOR]
    ensures Mount(disk, partition).Success?
    ensures var v := Mount(disk, partition).value;
      && v.recordSize == 1 && v.mftOffset == partition + 16 * (sectorSize % 0x1_0000)
      && ReadRecord(v, n).Failure? && (Components(path) != [] ==> Open(v, path).Failure?)
  {
    hide BootBytes, ReadRecord, Open, Components;
    ParseCreated(totalSectors, sectorSize);
    var v := Mount(disk, partition).value;
    ShortRecordsFail(v, n);
    OpenIsFollow(v, path);
    ShortRecordsFail(v, ROOT);
    if Components(path) != [] {
      NothingToEnter(v, Components(path)[0]);
    }
  }

  lemma NothingToEnter(v: Volume, component: string)
    requires ReadRecord(v, ROOT).Failure?
    ensures Enter(v, ROOT, component).Failure?
  {
  }
}
