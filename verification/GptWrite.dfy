/** Writing a partition table: protective MBR, both entry arrays, then both headers. */
module GptWrite {
  import opened Wrappers
  import opened Bytes
  import opened BlockStorage
  import opened Crc32
  import opened GptFormat
  import opened GptRead

  datatype DiskWrite = DiskWrite(off: nat, data: seq<Byte>)

  function SaturatingSub(a: nat, b: nat): nat {
    if a < b then 0 else a - b
  }

  function Min(a: nat, b: nat): nat {
    if a < b then a else b
  }

  // ----- What the five writes contain

  function MbrBytes(blockSize: nat, lastLba: nat): (s: seq<Byte>)
    requires blockSize >= 512
    ensures |s| == blockSize
  {
    Zeros(446) + ProtectiveEntry(lastLba) + Zeros(48) + [0x55, 0xAA] + Zeros(blockSize - 512)
  }

  /** One partition of the protective type that starts at block 1 and covers the disk. */
  function ProtectiveEntry(lastLba: nat): (s: seq<Byte>)
    ensures |s| == 16
  {
    [0, 0, 2, 0, 0xEE, 0xFF, 0xFF, 0xFF] + LE(4, 1) + LE(4, Min(lastLba, 0xFFFF_FFFF))
  }

  function Unsealed(myLba: U64, alternateLba: U64, entryLba: U64, arrayCrc: U32, lastLba: U64,
                    diskGuid: Guid, numEntries: U32): GptHeader
  {
    GptHeader(GPT_SIGNATURE, GPT_REVISION, GPT_HEADER_SIZE, 0, 0, myLba, alternateLba,
              GPT_FIRST_USABLE_LBA, SaturatingSub(lastLba, GPT_RESERVED_LBAS), diskGuid, entryLba,
              numEntries, GPT_ENTRY_SIZE, arrayCrc)
  }

  /** A header with the checksum of itself filled in. */
  function Sealed(h: GptHeader): GptHeader
    requires h.headerCrc == 0
  {
    h.(headerCrc := Crc(HeaderBytes(h)))
  }

  function HeaderBlock(h: GptHeader, blockSize: nat): (s: seq<Byte>)
    requires blockSize >= GPT_HEADER_SIZE
    ensures |s| == blockSize
  {
    HeaderBytes(h) + Zeros(blockSize - GPT_HEADER_SIZE)
  }

  function EntriesEnd(blockSize: nat, n: nat): nat
    requires blockSize > 0
  {
    2 + (n * GPT_ENTRY_SIZE + blockSize - 1) / blockSize
  }

  /** The caller's table fits this disk. */
  predicate Fits(d: Disk, n: nat) {
    && n <= GPT_MAX_ENTRIES
    && d.blockSize >= 512
    && 0 < d.blockCount < 0x1_0000_0000_0000_0000
    && EntriesEnd(d.blockSize, n) < SaturatingSub(d.blockCount - 1, GPT_RESERVED_LBAS)
  }

  function PrimaryHeader(d: Disk, entries: seq<GptEntry>, diskGuid: Guid): GptHeader
    requires Fits(d, |entries|)
  {
    Sealed(Unsealed(1, d.blockCount - 1, 2, Crc(SerializeEntries(entries)), d.blockCount - 1,
                    diskGuid, |entries|))
  }

  function BackupHeader(d: Disk, entries: seq<GptEntry>, diskGuid: Guid): GptHeader
    requires Fits(d, |entries|)
  {
    Sealed(Unsealed(d.blockCount - 1, 1, d.blockCount - 33, Crc(SerializeEntries(entries)),
                    d.blockCount - 1, diskGuid, |entries|))
  }

  /** The five writes, in the order they reach the disk. */
  function Plan(d: Disk, entries: seq<GptEntry>, diskGuid: Guid): (ws: seq<DiskWrite>)
    requires Fits(d, |entries|)
    ensures |ws| == 5
  {
    var table := SerializeEntries(entries);
    var last := d.blockCount - 1;
    [ DiskWrite(0, MbrBytes(d.blockSize, last)),
      DiskWrite(d.At(2), table),
      DiskWrite(d.At(last - 32), table),
      DiskWrite(d.At(1), HeaderBlock(PrimaryHeader(d, entries, diskGuid), d.blockSize)),
      DiskWrite(d.At(last), HeaderBlock(BackupHeader(d, entries, diskGuid), d.blockSize)) ]
  }

  /** Performs the writes in order and stops at the first one that fails. */
  function Perform(d: Disk, ws: seq<DiskWrite>): (r: (Result<(), GptError>, Disk))
    decreases |ws|
  {
    if ws == [] then (Success(()), d)
    else if !d.CanWrite(ws[0].off, |ws[0].data|) then (Failure(IoError), d)
    else Perform(d.Put(ws[0].off, ws[0].data), ws[1..])
  }

  /** Outcome and resulting disk of writing a table with a given disk identifier. */
  function WriteOutcome(d: Disk, entries: seq<GptEntry>, diskGuid: Guid): (Result<(), GptError>, Disk) {
    if |entries| > GPT_MAX_ENTRIES || d.blockCount == 0 then (Failure(NoSpace), d)
    else if d.blockSize < 512 || d.blockCount >= 0x1_0000_0000_0000_0000 then (Failure(Panicked), d)
    else if Fits(d, |entries|) then Perform(d, Plan(d, entries, diskGuid))
    else
      var (r, d1) := Perform(d, [DiskWrite(0, MbrBytes(d.blockSize, d.blockCount - 1))]);
      (if r.Failure? then r else Failure(NoSpace), d1)
  }

  // ----- The program's procedures

  method BuildHeader(h: GptHeader, blockSize: nat) returns (block: array<Byte>)
    requires blockSize >= GPT_HEADER_SIZE && h.headerCrc == 0 && h.reserved == 0
    ensures fresh(block) && block[..] == HeaderBlock(h, blockSize)
  {
    block := new Byte[blockSize](_ => 0);
    assert block[..] == [] + Zeros(blockSize);
    PutNext(block, [], 0, h.signature);
    PutNext(block, [] + h.signature, 8, h.revision);
    PutNext(block, [] + h.signature + h.revision, 12, LE(4, h.headerSize));
    assert [] + h.signature + h.revision + LE(4, h.headerSize) == HeaderHead(h);
    // the checksum and the reserved field stay zero
    ghost var base := HeaderHead(h) + LE(4, h.headerCrc);
    ZeroBytes(4);
    assert block[..] == base + LE(4, h.reserved) + Zeros(blockSize - 24);
    BuildHeaderTail(block, base, h);
  }

  method BuildHeaderTail(block: array<Byte>, ghost base: seq<Byte>, h: GptHeader)
    requires block.Length >= GPT_HEADER_SIZE && |base| == 20
    requires block[..] == base + LE(4, h.reserved) + Zeros(block.Length - 24)
    modifies block
    ensures block[..] == base + HeaderTail(h) + Zeros(block.Length - GPT_HEADER_SIZE)
  {
    ghost var done := base + LE(4, h.reserved);
    PutNext(block, done, 24, LE(8, h.myLba));
    done := done + LE(8, h.myLba);
    PutNext(block, done, 32, LE(8, h.alternateLba));
    done := done + LE(8, h.alternateLba);
    PutNext(block, done, 40, LE(8, h.firstUsableLba));
    done := done + LE(8, h.firstUsableLba);
    PutNext(block, done, 48, LE(8, h.lastUsableLba));
    done := done + LE(8, h.lastUsableLba);
    PutNext(block, done, 56, h.diskGuid);
    done := done + h.diskGuid;
    PutNext(block, done, 72, LE(8, h.partitionEntryLba));
    done := done + LE(8, h.partitionEntryLba);
    PutNext(block, done, 80, LE(4, h.numEntries));
    done := done + LE(4, h.numEntries);
    PutNext(block, done, 84, LE(4, h.entrySize));
    done := done + LE(4, h.entrySize);
    PutNext(block, done, 88, LE(4, h.arrayCrc));
    TailGrouping(base, h);
  }

  /** Appending the tail's fields one by one appends the tail. */
  lemma TailGrouping(p: seq<Byte>, h: GptHeader)
    ensures p + LE(4, h.reserved) + LE(8, h.myLba) + LE(8, h.alternateLba) + LE(8, h.firstUsableLba)
            + LE(8, h.lastUsableLba) + h.diskGuid + LE(8, h.partitionEntryLba) + LE(4, h.numEntries)
            + LE(4, h.entrySize) + LE(4, h.arrayCrc) == p + HeaderTail(h)
  {
  }

  lemma ZeroBytes(width: nat)
    ensures LE(width, 0) == Zeros(width)
  {
  }

  method FinalizeHeaderCrc(crcTable: array<U32>, block: array<Byte>, ghost h: GptHeader)
    requires IsTable(crcTable[..]) && crcTable as object != block
    requires h.headerCrc == 0 && block.Length >= GPT_HEADER_SIZE && block[..] == HeaderBlock(h, block.Length)
    modifies block
    ensures block[..] == HeaderBlock(Sealed(h), block.Length)
  {
    SealingBytes(h, 0, block.Length);
    CopyInto(block, 16, Zeros(4));
    ZeroBytes(4);
    assert block[..92] == HeaderBytes(h);
    var crc := ComputeCrc(crcTable, block[..92]);
    TableIsDivision(block[..92]);
    SealingBytes(h, crc, block.Length);
    CopyInto(block, 16, LE(4, crc));
  }

  /** Filling in the checksum field of a block. */
  lemma SealingBytes(h: GptHeader, crc: U32, blockSize: nat)
    requires blockSize >= GPT_HEADER_SIZE
    ensures Splice(HeaderBlock(h, blockSize), 16, LE(4, crc)) == HeaderBlock(h.(headerCrc := crc), blockSize)
  {
  }

  method WriteProtectiveMbr(dev: BlockDevice, lastLba: nat) returns (ok: bool)
    requires dev.blockSize >= 512
    modifies dev`content
    ensures ok == old(dev.State()).CanWrite(0, dev.blockSize)
    ensures dev.State() == old(dev.State()).Write(0, MbrBytes(dev.blockSize, lastLba))
  {
    var mbr := new Byte[dev.blockSize](_ => 0);
    ghost var done := Zeros(446);
    assert mbr[..] == done + Zeros(dev.blockSize - 446);
    PutNext(mbr, done, 446, [0, 0, 2, 0, 0xEE, 0xFF, 0xFF, 0xFF]);
    done := done + [0, 0, 2, 0, 0xEE, 0xFF, 0xFF, 0xFF];
    PutNext(mbr, done, 454, LE(4, 1));
    done := done + LE(4, 1);
    PutNext(mbr, done, 458, LE(4, Min(lastLba, 0xFFFF_FFFF)));
    done := done + LE(4, Min(lastLba, 0xFFFF_FFFF));
    assert done == Zeros(446) + ProtectiveEntry(lastLba);
    assert mbr[..] == done + Zeros(48) + Zeros(dev.blockSize - 510);
    PutNext(mbr, done + Zeros(48), 510, [0x55, 0xAA]);
    ok := dev.WriteBlocks(0, mbr[..]);
  }

  /** Entry arrays first, then the headers that point to them. */
  method WriteTables(dev: BlockDevice, entryArray: seq<Byte>, backupEntriesLba: nat, primary: seq<Byte>,
                     lastLba: nat, backup: seq<Byte>) returns (r: Result<(), GptError>)
    modifies dev`content
    ensures (r, dev.State()) == Perform(old(dev.State()), old(
      [ DiskWrite(dev.State().At(2), entryArray), DiskWrite(dev.State().At(backupEntriesLba), entryArray),
        DiskWrite(dev.State().At(1), primary), DiskWrite(dev.State().At(lastLba), backup) ]))
  {
    ghost var d := dev.State();
    ghost var ws := [ DiskWrite(d.At(2), entryArray), DiskWrite(d.At(backupEntriesLba), entryArray),
                      DiskWrite(d.At(1), primary), DiskWrite(d.At(lastLba), backup) ];
    var ok := dev.WriteBlocks(dev.State().At(2), entryArray);
    if !ok {
      return Failure(IoError);
    }
    assert Perform(d, ws) == Perform(dev.State(), ws[1..]);
    ok := dev.WriteBlocks(dev.State().At(backupEntriesLba), entryArray);
    if !ok {
      return Failure(IoError);
    }
    assert ws[1..][1..] == ws[2..];
    assert Perform(d, ws) == Perform(dev.State(), ws[2..]);
    ok := dev.WriteBlocks(dev.State().At(1), primary);
    if !ok {
      return Failure(IoError);
    }
    assert ws[2..][1..] == ws[3..];
    assert Perform(d, ws) == Perform(dev.State(), ws[3..]);
    ok := dev.WriteBlocks(dev.State().At(lastLba), backup);
    if !ok {
      return Failure(IoError);
    }
    return Success(());
  }

  /** Once the protective MBR is on the disk: the other four writes, or an early refusal. */
  lemma AfterMbr(d: Disk, entries: seq<GptEntry>, diskGuid: Guid)
    requires |entries| <= GPT_MAX_ENTRIES && d.blockSize >= 512
    requires 0 < d.blockCount < 0x1_0000_0000_0000_0000
    ensures WriteOutcome(d, entries, diskGuid) ==
            if !d.CanWrite(0, d.blockSize) then (Failure(IoError), d)
            else
            var d1 := d.Put(0, MbrBytes(d.blockSize, d.blockCount - 1));
            if Fits(d, |entries|) then Perform(d1, Plan(d, entries, diskGuid)[1..]) else (Failure(NoSpace), d1)
  {
    var w := DiskWrite(0, MbrBytes(d.blockSize, d.blockCount - 1));
    assert [w][1..] == [];
    if d.CanWrite(0, d.blockSize) {
      assert Perform(d, [w]) == Perform(d.Put(w.off, w.data), []);
    }
    if Fits(d, |entries|) {
      assert Plan(d, entries, diskGuid)[0] == w;
    }
  }

  /** `diskGuid` is the identifier the generator hands out for this call. */
  method WriteGpt(crcTable: array<U32>, dev: BlockDevice, entries: seq<GptEntry>, diskGuid: Guid)
    returns (r: Result<(), GptError>)
    requires IsTable(crcTable[..])
    modifies dev`content
    ensures (r, dev.State()) == WriteOutcome(old(dev.State()), entries, diskGuid)
  {
    hide Crc, SerializeEntries, HeaderBytes, BitwiseCrc, IsTable, TableEntry, MbrBytes, Perform, Splice;
    ghost var d := dev.State();
    if |entries| > GPT_MAX_ENTRIES || dev.blockCount == 0 {
      return Failure(NoSpace);
    }
    if dev.blockSize < 512 || dev.blockCount >= 0x1_0000_0000_0000_0000 {
      return Failure(Panicked);
    }
    var sector, lastLba := dev.blockSize, dev.blockCount - 1;
    var ok := WriteProtectiveMbr(dev, lastLba);
    AfterMbr(d, entries, diskGuid);
    if !ok {
      return Failure(IoError);
    }
    if EntriesEnd(sector, |entries|) >= SaturatingSub(lastLba, GPT_RESERVED_LBAS) {
      return Failure(NoSpace);
    }
    var entryArray := SerializeTable(entries);
    var arrayCrc := ComputeCrc(crcTable, entryArray);
    TableIsDivision(entryArray);
    var backupEntriesLba := lastLba - GPT_RESERVED_LBAS + 1;
    var ph := Unsealed(1, lastLba, 2, arrayCrc, lastLba, diskGuid, |entries|);
    var primary := BuildHeader(ph, sector);
    var bh := Unsealed(lastLba, 1, backupEntriesLba, arrayCrc, lastLba, diskGuid, |entries|);
    var backup := BuildHeader(bh, sector);
    FinalizeHeaderCrc(crcTable, primary, ph);
    FinalizeHeaderCrc(crcTable, backup, bh);
    r := WriteTables(dev, entryArray, backupEntriesLba, primary[..], lastLba, backup[..]);
  }
}
