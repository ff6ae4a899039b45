/** Reading a partition table: the primary header, or the backup header if the primary is bad. */
module GptRead {
  import opened Wrappers
  import opened Bytes
  import opened BlockStorage
  import opened Crc32
  import opened GptFormat

  type Table = (GptHeader, seq<GptEntry>)

  /** Products and sums are computed in 64 bits and checked. */
  const LIMIT: nat := 0x1_0000_0000_0000_0000

  function ValidateHeader(h: GptHeader): Result<(), GptError> {
    if h.signature != GPT_SIGNATURE then Failure(InvalidSignature)
    else if h.headerSize != GPT_HEADER_SIZE then Failure(InvalidHeaderSize)
    else if h.entrySize != GPT_ENTRY_SIZE then Failure(InvalidEntrySize)
    else Success(())
  }

  function VerifyHeader(raw: seq<Byte>): Result<GptHeader, GptError> {
    if |raw| < GPT_HEADER_SIZE then Failure(InvalidHeaderSize)
    else
      var h := ParseHeader(raw);
      var _ :- ValidateHeader(h);
      if Crc(Covered(raw)) != h.headerCrc then Failure(InvalidHeaderCrc) else Success(h)
  }

  function HeaderSector(d: Disk, lba: nat): Option<seq<Byte>> {
    if d.blockSize > 4096 || d.At(lba) >= LIMIT then None
    else
      match d.Read(d.At(lba), d.blockSize)
      case None => None
      case Some(raw) => if GPT_SIGNATURE <= raw then Some(raw) else None
  }

  function HeaderAt(d: Disk, lba: nat): Result<GptHeader, GptError> {
    match HeaderSector(d, lba)
    case None => Failure(InvalidSignature)
    case Some(raw) => VerifyHeader(raw)
  }

  /** The header the reader trusts: the primary if it verifies, otherwise the backup. */
  function TrustedHeader(d: Disk): Result<GptHeader, GptError> {
    if HeaderAt(d, 1).Success? then HeaderAt(d, 1)
    else if d.blockCount == 0 then Failure(InvalidSignature)
    else HeaderAt(d, d.blockCount - 1)
  }

  function EntriesOf(d: Disk, h: GptHeader): Result<seq<GptEntry>, GptError> {
    if h.entrySize != GPT_ENTRY_SIZE then Failure(InvalidEntrySize)
    else if h.numEntries > GPT_MAX_ENTRIES * 4 then Failure(InvalidHeaderSize)
    else if d.At(h.partitionEntryLba) >= LIMIT then Failure(Overflow)
    else
      match d.Read(d.At(h.partitionEntryLba), h.numEntries * GPT_ENTRY_SIZE)
      case None => Failure(IoError)
      case Some(raw) => Success(ParseEntries(raw))
  }

  function GptOf(d: Disk): Result<Table, GptError> {
    var h :- TrustedHeader(d);
    var entries :- EntriesOf(d, h);
    if Crc(SerializeEntries(entries)) != h.arrayCrc then Failure(InvalidEntriesCrc)
    else Success((h, entries))
  }

  // ----- The program's procedures

  method ReadHeaderRaw(dev: BlockDevice, lba: nat) returns (r: Option<seq<Byte>>)
    ensures r == HeaderSector(dev.State(), lba)
  {
    if dev.blockSize > 4096 || dev.State().At(lba) >= LIMIT {
      return None;
    }
    var buf := dev.ReadBlocks(dev.State().At(lba), dev.blockSize);
    if buf.None? || |buf.value| < 8 || buf.value[0..8] != GPT_SIGNATURE {
      return None;
    }
    return buf;
  }

  method ParseAndVerifyHeader(crcTable: array<U32>, raw: seq<Byte>) returns (r: Result<GptHeader, GptError>)
    requires IsTable(crcTable[..])
    ensures r == VerifyHeader(raw)
  {
    if |raw| < GPT_HEADER_SIZE {
      return Failure(InvalidHeaderSize);
    }
    var h := ParseHeader(raw);
    var valid := ValidateHeader(h);
    if valid.Failure? {
      return valid.PropagateFailure();
    }
    var crcBuf := new Byte[GPT_HEADER_SIZE](i requires 0 <= i < GPT_HEADER_SIZE => raw[i]);
    assert crcBuf[..] == raw[..GPT_HEADER_SIZE];
    CopyInto(crcBuf, 16, Zeros(4));
    var crc := ComputeCrc(crcTable, crcBuf[..]);
    TableIsDivision(crcBuf[..]);
    if crc != h.headerCrc {
      return Failure(InvalidHeaderCrc);
    }
    return Success(h);
  }

  method ReadEntries(dev: BlockDevice, h: GptHeader) returns (r: Result<seq<GptEntry>, GptError>)
    ensures r == EntriesOf(dev.State(), h)
  {
    if h.entrySize != GPT_ENTRY_SIZE {
      return Failure(InvalidEntrySize);
    }
    if h.numEntries > GPT_MAX_ENTRIES * 4 {
      return Failure(InvalidHeaderSize);
    }
    if dev.State().At(h.partitionEntryLba) >= LIMIT {
      return Failure(Overflow);
    }
    var buf := dev.ReadBlocks(dev.State().At(h.partitionEntryLba), h.numEntries * GPT_ENTRY_SIZE);
    if buf.None? {
      return Failure(IoError);
    }
    var entries := ParseEntryArray(buf.value);
    return Success(entries);
  }

  method ParseEntryArray(raw: seq<Byte>) returns (entries: seq<GptEntry>)
    ensures entries == ParseEntries(raw)
  {
    entries := [];
    var rest := raw;
    while |rest| >= GPT_ENTRY_SIZE
      invariant ParseEntries(raw) == entries + ParseEntries(rest)
      decreases |rest|
    {
      entries := entries + [ParseEntry(rest[..GPT_ENTRY_SIZE])];
      rest := rest[GPT_ENTRY_SIZE..];
    }
  }

  method SerializeTable(entries: seq<GptEntry>) returns (buf: seq<Byte>)
    ensures buf == SerializeEntries(entries)
  {
    buf := [];
    for i := 0 to |entries|
      invariant buf == SerializeEntries(entries[..i])
    {
      assert entries[..i + 1] == entries[..i] + [entries[i]];
      SerializeAppend(entries[..i], entries[i]);
      buf := buf + EntryBytes(entries[i]);
    }
    assert entries[..|entries|] == entries;
  }

  method ReadTrustedHeader(crcTable: array<U32>, dev: BlockDevice) returns (r: Result<GptHeader, GptError>)
    requires IsTable(crcTable[..])
    ensures r == TrustedHeader(dev.State())
  {
    var primary := ReadHeaderRaw(dev, 1);
    if primary.Some? {
      r := ParseAndVerifyHeader(crcTable, primary.value);
      if r.Success? {
        return;
      }
    }
    if dev.blockCount == 0 {
      return Failure(InvalidSignature);
    }
    var backup := ReadHeaderRaw(dev, dev.blockCount - 1);
    if backup.None? {
      return Failure(InvalidSignature);
    }
    r := ParseAndVerifyHeader(crcTable, backup.value);
  }

  method VerifyEntriesCrc(crcTable: array<U32>, entries: seq<GptEntry>, stored: U32) returns (ok: bool)
    requires IsTable(crcTable[..])
    ensures ok <==> Crc(SerializeEntries(entries)) == stored
  {
    var raw := SerializeTable(entries);
    var crc := ComputeCrc(crcTable, raw);
    TableIsDivision(raw);
    ok := crc == stored;
  }

  method ReadGpt(crcTable: array<U32>, dev: BlockDevice) returns (r: Result<Table, GptError>)
    requires IsTable(crcTable[..])
    ensures r == GptOf(dev.State())
  {
    var header := ReadTrustedHeader(crcTable, dev);
    if header.Failure? {
      return header.PropagateFailure();
    }
    var h := header.value;
    var entries := ReadEntries(dev, h);
    if entries.Failure? {
      return entries.PropagateFailure();
    }
    var ok := VerifyEntriesCrc(crcTable, entries.value, h.arrayCrc);
    if !ok {
      return Failure(InvalidEntriesCrc);
    }
    return Success((h, entries.value));
  }
}
