/** The on-disk layout of a GUID partition table: header and entry array. */
module GptFormat {
  import opened Text
  import opened Bytes

  const GPT_HEADER_SIZE: nat := 92
  const GPT_ENTRY_SIZE: nat := 128
  const GPT_MAX_ENTRIES: nat := 128
  const GPT_FIRST_USABLE_LBA: nat := 34
  const GPT_RESERVED_LBAS: nat := 33
  // "EFI PART"
  const GPT_SIGNATURE: seq<Byte> := [0x45, 0x46, 0x49, 0x20, 0x50, 0x41, 0x52, 0x54]
  const GPT_REVISION: seq<Byte> := [0, 0, 1, 0]

  type Guid = g: seq<Byte> | |g| == 16 witness Zeros(16)
  type Signature = s: seq<Byte> | |s| == 8 witness Zeros(8)
  type Revision = s: seq<Byte> | |s| == 4 witness Zeros(4)
  type Units = n: seq<U16> | |n| == 36 witness seq(36, _ => 0)

  datatype GptEntry = GptEntry(
    typeGuid: Guid, uniqueGuid: Guid, startLba: U64, endLba: U64, attributes: U64, name: Units)

  datatype GptHeader = GptHeader(
    signature: Signature, revision: Revision, headerSize: U32, headerCrc: U32, reserved: U32,
    myLba: U64, alternateLba: U64, firstUsableLba: U64, lastUsableLba: U64, diskGuid: Guid,
    partitionEntryLba: U64, numEntries: U32, entrySize: U32, arrayCrc: U32)

  /** `Panicked` stands for a failed index, assertion or checked arithmetic operation. */
  datatype GptError =
    | InvalidSignature | InvalidHeaderCrc | InvalidEntriesCrc | InvalidHeaderSize
    | InvalidEntrySize | IoError | Overflow | NoSpace | NotFound | Panicked

  // ----- UTF-16 units

  function ParseUnits(s: seq<Byte>): (units: seq<U16>)
    requires |s| % 2 == 0
    ensures |units| == |s| / 2
  {
    if s == [] then [] else [ReadU16(s, 0)] + ParseUnits(s[2..])
  }

  lemma {:induction false} ParseUnitBytes(units: seq<U16>)
    ensures ParseUnits(UnitBytes(units)) == units
  {
    if units != [] {
      var s := UnitBytes(units);
      assert s[0..2] == LE(2, units[0]) && s[2..] == UnitBytes(units[1..]);
      Widths();
      ValueFits(2, units[0]);
      ParseUnitBytes(units[1..]);
      assert units == [units[0]] + units[1..];
    }
  }

  lemma {:induction false} UnitBytesParse(s: seq<Byte>)
    requires |s| % 2 == 0
    ensures UnitBytes(ParseUnits(s)) == s
  {
    if s != [] {
      LEOfValue(s[0..2]);
      UnitBytesParse(s[2..]);
      assert ParseUnits(s)[1..] == ParseUnits(s[2..]);
      assert s == s[0..2] + s[2..];
    }
  }

  // ----- Entries

  function EntryBytes(e: GptEntry): (s: seq<Byte>)
    ensures |s| == GPT_ENTRY_SIZE
  {
    e.typeGuid + e.uniqueGuid + LE(8, e.startLba) + LE(8, e.endLba) + LE(8, e.attributes)
    + UnitBytes(e.name)
  }

  function ParseEntry(s: seq<Byte>): GptEntry
    requires |s| == GPT_ENTRY_SIZE
  {
    GptEntry(s[0..16], s[16..32], ReadU64(s, 32), ReadU64(s, 40), ReadU64(s, 48),
             ParseUnits(s[56..128]))
  }

  /** Where the six fields of an entry lie. */
  lemma EntryParts(a: seq<Byte>, b: seq<Byte>, c: seq<Byte>, d: seq<Byte>, e: seq<Byte>, f: seq<Byte>)
    requires |a| == 16 && |b| == 16 && |c| == 8 && |d| == 8 && |e| == 8 && |f| == 72
    ensures var s := a + b + c + d + e + f;
      && s[0..16] == a && s[16..32] == b && s[32..40] == c && s[40..48] == d && s[48..56] == e && s[56..128] == f
  {
    var s := a + b + c + d + e + f;
    assert s[0..16] == a && s[16..32] == b;
    assert s[32..40] == c && s[40..48] == d;
    assert s[48..56] == e;
    assert s[56..128] == f;
  }

  lemma ParseEntryBytes(e: GptEntry)
    ensures ParseEntry(EntryBytes(e)) == e
  {
    hide LE, UnitBytes, ParseUnits, Value;
    EntryParts(e.typeGuid, e.uniqueGuid, LE(8, e.startLba), LE(8, e.endLba), LE(8, e.attributes), UnitBytes(e.name));
    Widths();
    ValueFits(8, e.startLba);
    ValueFits(8, e.endLba);
    ValueFits(8, e.attributes);
    ParseUnitBytes(e.name);
  }

  lemma EntryBytesParse(s: seq<Byte>)
    requires |s| == GPT_ENTRY_SIZE
    ensures EntryBytes(ParseEntry(s)) == s
  {
    LEOfValue(s[32..40]);
    LEOfValue(s[40..48]);
    LEOfValue(s[48..56]);
    UnitBytesParse(s[56..128]);
    assert s == s[0..16] + s[16..32] + s[32..40] + s[40..48] + s[48..56] + s[56..128];
  }

  function SerializeEntries(entries: seq<GptEntry>): (s: seq<Byte>)
    ensures |s| == GPT_ENTRY_SIZE * |entries|
  {
    if entries == [] then [] else EntryBytes(entries[0]) + SerializeEntries(entries[1..])
  }

  /** Every full 128-byte chunk is one entry; a shorter tail is dropped. */
  function ParseEntries(s: seq<Byte>): (entries: seq<GptEntry>)
    ensures |entries| == |s| / GPT_ENTRY_SIZE
  {
    if |s| < GPT_ENTRY_SIZE then []
    else [ParseEntry(s[..GPT_ENTRY_SIZE])] + ParseEntries(s[GPT_ENTRY_SIZE..])
  }

  /** Parsing inverts serialization. */
  lemma {:induction false} ParseSerialized(entries: seq<GptEntry>)
    ensures ParseEntries(SerializeEntries(entries)) == entries
  {
    hide EntryBytes, ParseEntry;
    if entries != [] {
      var s := SerializeEntries(entries);
      assert s[..128] == EntryBytes(entries[0]) && s[128..] == SerializeEntries(entries[1..]);
      ParseEntryBytes(entries[0]);
      ParseSerialized(entries[1..]);
      assert entries == [entries[0]] + entries[1..];
    }
  }

  /** Serialization inverts parsing: every whole array is the array of some table. */
  lemma {:induction false} SerializeParsed(s: seq<Byte>)
    requires |s| % GPT_ENTRY_SIZE == 0
    ensures SerializeEntries(ParseEntries(s)) == s
  {
    if s != [] {
      EntryBytesParse(s[..128]);
      SerializeParsed(s[128..]);
      assert ParseEntries(s)[1..] == ParseEntries(s[128..]);
      assert s == s[..128] + s[128..];
    }
  }

  lemma {:induction false} SerializeAppend(entries: seq<GptEntry>, e: GptEntry)
    ensures SerializeEntries(entries + [e]) == SerializeEntries(entries) + EntryBytes(e)
  {
    if entries == [] {
      assert [e][1..] == [];
    } else {
      assert (entries + [e])[1..] == entries[1..] + [e];
      SerializeAppend(entries[1..], e);
    }
  }

  // ----- Headers

  function HeaderBytes(h: GptHeader): (s: seq<Byte>)
    ensures |s| == GPT_HEADER_SIZE
  {
    HeaderHead(h) + LE(4, h.headerCrc) + HeaderTail(h)
  }

  function HeaderHead(h: GptHeader): (s: seq<Byte>)
    ensures |s| == 16
  {
    h.signature + h.revision + LE(4, h.headerSize)
  }

  function HeaderTail(h: GptHeader): (s: seq<Byte>)
    ensures |s| == 72
  {
    LE(4, h.reserved) + LE(8, h.myLba) + LE(8, h.alternateLba) + LE(8, h.firstUsableLba)
    + LE(8, h.lastUsableLba) + h.diskGuid + LE(8, h.partitionEntryLba) + LE(4, h.numEntries)
    + LE(4, h.entrySize) + LE(4, h.arrayCrc)
  }

  function ParseHeader(raw: seq<Byte>): GptHeader
    requires |raw| >= GPT_HEADER_SIZE
  {
    GptHeader(raw[0..8], raw[8..12], ReadU32(raw, 12), ReadU32(raw, 16), ReadU32(raw, 20),
              ReadU64(raw, 24), ReadU64(raw, 32), ReadU64(raw, 40), ReadU64(raw, 48), raw[56..72],
              ReadU64(raw, 72), ReadU32(raw, 80), ReadU32(raw, 84), ReadU32(raw, 88))
  }

  lemma ParseHeaderBytes(h: GptHeader, rest: seq<Byte>)
    ensures ParseHeader(HeaderBytes(h) + rest) == h
  {
    var s := HeaderBytes(h) + rest;
    Widths();
    assert s[0..8] == h.signature && s[8..12] == h.revision && s[12..16] == LE(4, h.headerSize);
    assert s[16..20] == LE(4, h.headerCrc) && s[20..24] == LE(4, h.reserved);
    assert s[24..32] == LE(8, h.myLba) && s[32..40] == LE(8, h.alternateLba);
    assert s[40..48] == LE(8, h.firstUsableLba) && s[48..56] == LE(8, h.lastUsableLba);
    assert s[56..72] == h.diskGuid && s[72..80] == LE(8, h.partitionEntryLba);
    assert s[80..84] == LE(4, h.numEntries) && s[84..88] == LE(4, h.entrySize);
    assert s[88..92] == LE(4, h.arrayCrc);
    ValueFits(4, h.headerSize);
    ValueFits(4, h.headerCrc);
    ValueFits(4, h.reserved);
    ValueFits(8, h.myLba);
    ValueFits(8, h.alternateLba);
    ValueFits(8, h.firstUsableLba);
    ValueFits(8, h.lastUsableLba);
    ValueFits(8, h.partitionEntryLba);
    ValueFits(4, h.numEntries);
    ValueFits(4, h.entrySize);
    ValueFits(4, h.arrayCrc);
  }

  /** The bytes a header's checksum covers: its 92 bytes with the checksum field zeroed. */
  function Covered(raw: seq<Byte>): (s: seq<Byte>)
    requires |raw| >= GPT_HEADER_SIZE
    ensures |s| == GPT_HEADER_SIZE
  {
    Splice(raw[..GPT_HEADER_SIZE], 16, Zeros(4))
  }
}
