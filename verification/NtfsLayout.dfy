/** The bytes of what the driver writes for a new file: its record and its directory entry, field by field. */
module NtfsLayout {
  import opened Text
  import opened Bytes
  import opened NtfsTypes
  import opened NtfsInsert
  import opened NtfsBuild

  // ----- One attribute

  /** A resident attribute of a type, with its value and zeros up to a multiple of eight bytes. */
  ghost predicate Resident(b: seq<Byte>, code: nat, value: seq<Byte>, indexed: Byte) {
    && 24 + |value| <= |b| < 32 + |value| && |b| % 8 == 0
    && b[0..4] == LE(4, code) && b[4..8] == LE(4, |b|) && b[8..16] == Zeros(8) && b[16..20] == LE(4, |value|)
    && b[20..22] == LE(2, 24) && b[22..24] == [indexed, 0] && b[24..24 + |value|] == value
    && b[24 + |value|..] == Zeros(|b| - 24 - |value|)
  }

  lemma AttrIs(code: nat, value: seq<Byte>, indexed: Byte)
    ensures Resident(Attr(code, value, indexed), code, value, indexed)
  {
    hide LE;
    var b, head := Attr(code, value, indexed), AttrHead(code, AttrSize(|value|), |value|, indexed);
    assert b[0..24] == head;
    assert b[0..4] == head[0..4] && b[4..8] == head[4..8] && b[8..16] == head[8..16] && b[16..20] == head[16..20];
    assert b[20..22] == head[20..22] && b[22..24] == head[22..24];
  }

  /** Four zeroed times, the attribute flags of a directory or an archived file, and zeros. */
  ghost predicate StandardInfo(v: seq<Byte>, isDirectory: bool) {
    && |v| == 72 && v[0..32] == Zeros(32) && v[36..72] == Zeros(36)
    && v[32..36] == LE(4, if isDirectory then 0x10 else 0x20)
  }

  /** The parent, zeros for times and sizes but for the flags, the length of the name, the combined namespace, and
      the name. */
  ghost predicate NameKey(v: seq<Byte>, parent: nat, flags: nat, units: seq<U16>) {
    && |v| == 66 + 2 * |units| && v[0..8] == LE(8, parent) && v[8..56] == Zeros(48) && v[56..60] == LE(4, flags)
    && v[60..64] == Zeros(4) && v[64] == |units| % 256 && v[65] == 1
    && forall i | 0 <= i < |units| :: v[66 + 2 * i..68 + 2 * i] == LE(2, units[i])
  }

  /** An index of file names without entries: a header of 32 bytes and an end entry of 16. */
  ghost predicate EmptyIndex(v: seq<Byte>, recordSize: nat) {
    && |v| == 48 && v[0..4] == LE(4, 0x30) && v[4..8] == Zeros(4) && v[8..12] == LE(4, recordSize)
    && v[12..16] == [1, 0, 0, 0]
    && v[16..20] == LE(4, 32) && v[20..24] == LE(4, 48) && v[24..28] == LE(4, 48) && v[28..32] == Zeros(4)
    && v[32..40] == Zeros(8) && v[40..42] == LE(2, 16) && v[42..44] == Zeros(2) && v[44..46] == LE(2, 2)
    && v[46..48] == Zeros(2)
  }

  lemma NoBits(width: nat)
    ensures LE(width, 0) == Zeros(width)
  {
  }

  lemma StandardInfoIs(isDirectory: bool)
    ensures StandardInfo(StandardInfoValue(isDirectory), isDirectory)
  {
    hide LE;
  }

  lemma NameKeyIs(parent: nat, flags: nat, units: seq<U16>)
    ensures NameKey(KeyBytes(parent, flags, units), parent, flags, units)
  {
    hide LE, UnitBytes;
    var v, head := KeyBytes(parent, flags, units), KeyHead(parent, flags, |units|);
    assert v[0..8] == head[0..8] && v[8..56] == head[8..56] && v[56..60] == head[56..60] && v[60..64] == head[60..64];
    assert v[66..] == UnitBytes(units);
    forall i | 0 <= i < |units| ensures v[66 + 2 * i..68 + 2 * i] == LE(2, units[i]) {
      UnitBytesAt(units, i);
      assert v[66 + 2 * i..68 + 2 * i] == UnitBytes(units)[2 * i..2 * i + 2];
    }
  }

  lemma EmptyIndexIs(recordSize: nat)
    ensures EmptyIndex(IndexRootValue(recordSize), recordSize)
  {
    hide LE;
    NoBits(2);
    NoBits(4);
    NoBits(8);
  }

  // ----- A new record

  /** The header: signature, the place and size of the fixup array, sequence number and link count, where the
      attributes start, the flag of a record in use, its sizes and its number. */
  ghost predicate RecordHeader(b: seq<Byte>, recordSize: nat, num: nat, used: nat) {
    && |b| == 56 && b[0..4] == [0x46, 0x49, 0x4C, 0x45] && b[4..6] == LE(2, 48) && b[6..8] == LE(2, 3)
    && b[8..16] == Zeros(8) && b[16..18] == LE(2, num) && b[18..20] == LE(2, 1) && b[20..22] == LE(2, 56)
    && b[22..24] == LE(2, 1) && b[24..28] == LE(4, used) && b[28..32] == LE(4, recordSize)
    && b[32..48] == Zeros(16) && b[48..50] == LE(2, num) && b[50..56] == Zeros(6)
  }

  lemma HeaderIs(recordSize: nat, num: nat, used: nat)
    ensures RecordHeader(RecordHead(recordSize, num, used), recordSize, num, used)
  {
    hide LE;
    NoBits(2);
    NoBits(8);
    var b, tail := RecordHead(recordSize, num, used), HeadTail(recordSize, num);
    assert b[28..56] == tail;
    assert b[28..32] == tail[0..4] && b[32..48] == tail[4..20];
    assert b[48..50] == tail[20..22] && b[50..56] == tail[22..28];
  }

  /** A new record: header, three attributes - standard information, name, and the contents of a file or the empty
      index of a directory -, end mark, and zeros. */
  lemma RecordIs(recordSize: nat, num: nat, name: string, parent: nat, isDirectory: bool, data: seq<Byte>)
    returns (info: seq<Byte>, key: seq<Byte>, a: seq<Byte>, n: seq<Byte>, p: seq<Byte>, used: nat, payload: seq<Byte>)
    requires BuildRecord(recordSize, num, name, parent, isDirectory, data).Success?
    ensures var b, end := BuildRecord(recordSize, num, name, parent, isDirectory, data).value, 56 + |a| + |n| + |p|;
      && |b| == recordSize && end + 4 <= |b|
      && RecordHeader(b[0..56], recordSize, num, used) && end + 4 <= used < end + 12 && used % 8 == 0
      && b[56..end] == a + n + p
      && Resident(a, 0x10, info, 0) && StandardInfo(info, isDirectory)
      && Resident(n, 0x30, key, 1) && NameKey(key, parent, 0, Utf16(name))
      && (isDirectory ==> Resident(p, 0x90, payload, 0) && EmptyIndex(payload, recordSize))
      && (!isDirectory ==> Resident(p, 0x80, data, 0))
      && b[end..end + 4] == [0xFF, 0xFF, 0xFF, 0xFF] && b[end + 4..] == Zeros(recordSize - end - 4)
  {
    hide LE, Attr, KeyBytes, Resident, RecordHead, RecordHeader, StandardInfo, NameKey, EmptyIndex, AttrSize;
    info, key := StandardInfoValue(isDirectory), KeyBytes(parent, 0, Utf16(name));
    payload := IndexRootValue(recordSize);
    a, n, p := Attr(0x10, info, 0), Attr(0x30, key, 1), Payload(recordSize, isDirectory, data);
    var attrs := AttributesOf(recordSize, name, parent, isDirectory, data);
    assert attrs == a + n + p;
    used := Align8(60 + |attrs|);
    AttrIs(0x10, info, 0);
    StandardInfoIs(isDirectory);
    AttrIs(0x30, key, 1);
    NameKeyIs(parent, 0, Utf16(name));
    AttrIs(0x90, payload, 0);
    EmptyIndexIs(recordSize);
    AttrIs(0x80, data, 0);
    HeaderIs(recordSize, num, used);
    LEIs(0xFFFF_FFFF);
    assert BuildRecord(recordSize, num, name, parent, isDirectory, data).value[0..56]
        == RecordHead(recordSize, num, used);
  }

  // ----- A directory entry

  /** A new directory entry: the record number, its length and that of its key, no flags, the key with the flag of a
      directory, and zeros up to a multiple of eight bytes. */
  lemma EntryIs(child: nat, parent: nat, units: seq<U16>) returns (key: seq<Byte>)
    ensures var e := EntryBytes(child, parent, units);
      && 16 + |key| <= |e| < 24 + |key| && |e| % 8 == 0
      && e[0..8] == LE(8, child) && e[8..10] == LE(2, |e|) && e[10..12] == LE(2, |key|) && e[12..16] == Zeros(4)
      && e[16..16 + |key|] == key && NameKey(key, parent, 0x10, units)
      && e[16 + |key|..] == Zeros(|e| - 16 - |key|)
  {
    hide LE, KeyBytes, NameKey;
    key := KeyBytes(parent, 0x10, units);
    NameKeyIs(parent, 0x10, units);
    NoBits(2);
    var e, head := EntryBytes(child, parent, units), EntryHead(child, units);
    assert e[0..16] == head;
    assert e[0..8] == head[0..8] && e[8..10] == head[8..10] && e[10..12] == head[10..12] && e[12..16] == head[12..16];
  }
}
