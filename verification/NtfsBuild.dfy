/** Building the file record of a new file or directory. */
module NtfsBuild {
  import opened Wrappers
  import opened Text
  import opened Bytes
  import opened NtfsTypes
  import opened NtfsAttributes
  import opened NtfsInsert

  // "FILE" and "BAAD"
  const FILE_SIGNATURE: seq<Byte> := [0x46, 0x49, 0x4C, 0x45]
  const BAAD_SIGNATURE: seq<Byte> := [0x42, 0x41, 0x41, 0x44]
  const STANDARD_INFO: nat := 0x10
  const MAX_RESIDENT_DATA: nat := 700

  // ----- Layout

  /** The 24-byte header of a resident attribute whose value follows it. */
  function AttrHead(code: nat, size: nat, valueSize: nat, indexed: Byte): (s: seq<Byte>)
    ensures |s| == 24
  {
    LE(4, code) + LE(4, size) + [0, 0] + Zeros(6) + LE(4, valueSize) + LE(2, 24) + [indexed, 0]
  }

  function AttrSize(valueSize: nat): nat {
    Align8(24 + valueSize)
  }

  function StandardInfoValue(isDirectory: bool): (s: seq<Byte>)
    ensures |s| == 72
  {
    Zeros(32) + LE(4, if isDirectory then 0x10 else 0x20) + Zeros(36)
  }

  function IndexRootValue(recordSize: nat): (s: seq<Byte>)
    ensures |s| == 48
  {
    LE(4, 0x30) + LE(4, 0) + LE(4, recordSize) + [1] + Zeros(3)
    + (LE(4, 32) + LE(4, 48) + LE(4, 48) + Zeros(4))
    + (LE(8, 0) + LE(2, 16) + LE(2, 0) + LE(2, 2) + Zeros(2))
  }

  /** A resident attribute: header, value, padding to a multiple of eight. */
  function Attr(code: nat, value: seq<Byte>, indexed: Byte): (s: seq<Byte>)
    ensures |s| == AttrSize(|value|)
  {
    AttrHead(code, AttrSize(|value|), |value|, indexed) + (value + Zeros(AttrSize(|value|) - 24 - |value|))
  }

  function UnpaddedName(parent: nat, units: seq<U16>): (s: seq<Byte>)
    ensures |s| == 90 + 2 * |units|
  {
    AttrHead(FILE_NAME, AttrSize(66 + 2 * |units|), 66 + 2 * |units|, 1) + KeyBytes(parent, 0, units)
  }

  /** The last attribute: the contents of a file or the empty index of a directory. */
  function Payload(recordSize: nat, isDirectory: bool, data: seq<Byte>): seq<Byte> {
    if isDirectory then Attr(INDEX_ROOT, IndexRootValue(recordSize), 0) else Attr(DATA, data, 0)
  }

  function RecordHead(recordSize: nat, num: nat, used: nat): (s: seq<Byte>)
    ensures |s| == 56
  {
    FILE_SIGNATURE + LE(2, 48) + LE(2, 3) + LE(8, 0) + LE(2, num) + LE(2, 1) + LE(2, 56) + LE(2, 1)
    + LE(4, used)
    + HeadTail(recordSize, num)
  }

  function HeadTail(recordSize: nat, num: nat): (s: seq<Byte>)
    ensures |s| == 28
  {
    LE(4, recordSize) + LE(8, 0) + LE(2, 0) + Zeros(6) + LE(2, num) + Zeros(4) + Zeros(2)
  }

  function AttributesOf(recordSize: nat, name: string, parent: nat, isDirectory: bool, data: seq<Byte>): seq<Byte> {
    Attr(STANDARD_INFO, StandardInfoValue(isDirectory), 0)
    + (Attr(FILE_NAME, KeyBytes(parent, 0, Utf16(name)), 1) + Payload(recordSize, isDirectory, data))
  }

  /** A new record, or why there is none: names and contents are limited and everything must fit. The
      end mark is written without a check that it fits. */
  function BuildRecord(recordSize: nat, num: nat, name: string, parent: nat, isDirectory: bool, data: seq<Byte>)
    : (r: Outcome<seq<Byte>>)
    ensures r.Success? ==> |r.value| == recordSize
  {
    var attrs := AttributesOf(recordSize, name, parent, isDirectory, data);
    if recordSize < 54 then Failure(Panicked)
    else if 152 > recordSize then Failure(NoSpace)
    else if |Utf16(name)| > 255 then Failure(NameTooLong)
    else if 152 + AttrSize(66 + 2 * |Utf16(name)|) > recordSize then Failure(NoSpace)
    else if !isDirectory && |data| > MAX_RESIDENT_DATA then Failure(InvalidAttribute)
    else if 56 + |attrs| > recordSize then Failure(NoSpace)
    else if 60 + |attrs| > recordSize then Failure(Panicked)
    else Success(RecordHead(recordSize, num, Align8(60 + |attrs|)) + attrs + LE(4, END_MARK)
                 + Zeros(recordSize - 60 - |attrs|))
  }

  // ----- The program's procedures

  method WriteAttrHead(record: array<Byte>, off: nat, code: nat, size: nat, valueSize: nat, indexed: Byte)
    requires off + 24 <= record.Length
    modifies record
    ensures record[..] == Splice(old(record[..]), off, AttrHead(code, size, valueSize, indexed))
  {
    hide Splice, LE;
    ghost var b := record[..];
    CopyInto(record, off, LE(4, code));
    CopyInto(record, off + 4, LE(4, size));
    SpliceMore(b, off, LE(4, code), LE(4, size));
    ghost var done := LE(4, code) + LE(4, size);
    CopyInto(record, off + 8, [0, 0]);
    SpliceMore(b, off, done, [0, 0]);
    done := done + [0, 0];
    CopyInto(record, off + 10, Zeros(6));
    SpliceMore(b, off, done, Zeros(6));
    done := done + Zeros(6);
    CopyInto(record, off + 16, LE(4, valueSize));
    SpliceMore(b, off, done, LE(4, valueSize));
    done := done + LE(4, valueSize);
    CopyInto(record, off + 20, LE(2, 24));
    SpliceMore(b, off, done, LE(2, 24));
    done := done + LE(2, 24);
    CopyInto(record, off + 22, [indexed, 0]);
    SpliceMore(b, off, done, [indexed, 0]);
  }

  /** Writes a whole attribute and reports where the next one goes. */
  method WriteAttr(record: array<Byte>, off: nat, code: nat, value: seq<Byte>, indexed: Byte) returns (r: Outcome<nat>)
    modifies record
    ensures r == if off + AttrSize(|value|) > record.Length then Failure(NoSpace) else Success(off + AttrSize(|value|))
    ensures r.Failure? ==> record[..] == old(record[..])
    ensures r.Success? ==> record[..] == Splice(old(record[..]), off, Attr(code, value, indexed))
  {
    hide Splice, LE, AttrHead;
    var size, head := AttrSize(|value|), AttrHead(code, AttrSize(|value|), |value|, indexed);
    if off + size > record.Length {
      return Failure(NoSpace);
    }
    ghost var b := record[..];
    WriteAttrHead(record, off, code, size, |value|, indexed);
    CopyInto(record, off + 24, value);
    CopyInto(record, off + 24 + |value|, Zeros(size - 24 - |value|));
    SpliceMore(b, off, head, value);
    SpliceMore(b, off, head + value, Zeros(size - 24 - |value|));
    Assoc(head, value, Zeros(size - 24 - |value|));
    return Success(off + size);
  }

  /** The file-name attribute is written without its padding, which relies on a zeroed record. */
  method WriteFileName(record: array<Byte>, off: nat, parent: nat, units: seq<U16>) returns (r: Outcome<nat>)
    modifies record
    ensures r == if |units| > 255 then Failure(NameTooLong)
                 else if off + AttrSize(66 + 2 * |units|) > record.Length then Failure(NoSpace)
                 else Success(off + AttrSize(66 + 2 * |units|))
    ensures r.Failure? ==> record[..] == old(record[..])
    ensures r.Success? ==>
      record[..] == Splice(old(record[..]), off, UnpaddedName(parent, units))
  {
    hide Splice, LE, AttrHead, KeyHead, UnitBytes;
    if |units| > 255 {
      return Failure(NameTooLong);
    }
    var valueSize := 66 + 2 * |units|;
    if off + AttrSize(valueSize) > record.Length {
      return Failure(NoSpace);
    }
    ghost var b := record[..];
    WriteAttrHead(record, off, FILE_NAME, AttrSize(valueSize), valueSize, 1);
    var key := BuildKey(parent, 0, units);
    CopyInto(record, off + 24, key);
    SpliceMore(b, off, AttrHead(FILE_NAME, AttrSize(valueSize), valueSize, 1), key);
    return Success(off + AttrSize(valueSize));
  }

  method WriteRecordHead(record: array<Byte>, num: nat)
    requires record.Length >= 56 && record[..] == Zeros(record.Length)
    modifies record
    ensures record[..] == RecordHead(record.Length, num, 0) + Zeros(record.Length - 56)
  {
    hide Splice, LE;
    var n := record.Length;
    assert record[..] == [] + Zeros(n);
    PutNext(record, [], 0, FILE_SIGNATURE);
    ghost var done := [] + FILE_SIGNATURE;
    PutNext(record, done, 4, LE(2, 48));
    done := done + LE(2, 48);
    PutNext(record, done, 6, LE(2, 3));
    done := done + LE(2, 3);
    PutNext(record, done, 8, LE(8, 0));
    done := done + LE(8, 0);
    PutNext(record, done, 16, LE(2, num));
    done := done + LE(2, num);
    PutNext(record, done, 18, LE(2, 1));
    done := done + LE(2, 1);
    PutNext(record, done, 20, LE(2, 56));
    done := done + LE(2, 56);
    PutNext(record, done, 22, LE(2, 1));
    done := done + LE(2, 1);
    PutNext(record, done, 24, LE(4, 0));
    done := done + LE(4, 0);
    WriteRecordHeadTail(record, done, num);
    assert [] + FILE_SIGNATURE == FILE_SIGNATURE;
  }

  method WriteRecordHeadTail(record: array<Byte>, ghost base: seq<Byte>, num: nat)
    requires record.Length >= 56 && |base| == 28 && record[..] == base + Zeros(record.Length - 28)
    modifies record
    ensures record[..] == base + HeadTail(record.Length, num) + Zeros(record.Length - 56)
  {
    hide Splice, LE;
    var n := record.Length;
    PutNext(record, base, 28, LE(4, n));
    PutNext(record, base + LE(4, n), 32, LE(8, 0));
    PutNext(record, base + LE(4, n) + LE(8, 0), 40, LE(2, 0));
    PutNext(record, base + LE(4, n) + LE(8, 0) + LE(2, 0), 42, Zeros(6));
    PutNext(record, base + LE(4, n) + LE(8, 0) + LE(2, 0) + Zeros(6), 48, LE(2, num));
    PutNext(record, base + LE(4, n) + LE(8, 0) + LE(2, 0) + Zeros(6) + LE(2, num), 50, Zeros(4));
    HeadTailGrouping(base, n, num);
  }

  lemma HeadTailGrouping(base: seq<Byte>, n: nat, num: nat)
    requires n >= 56
    ensures base + LE(4, n) + LE(8, 0) + LE(2, 0) + Zeros(6) + LE(2, num) + Zeros(4) + Zeros(n - 54)
         == base + HeadTail(n, num) + Zeros(n - 56)
  {
  }

  method BuildMftRecord(recordSize: nat, num: nat, name: string, parent: nat, isDirectory: bool, data: seq<Byte>)
    returns (r: Outcome<()>, record: array<Byte>)
    ensures fresh(record)
    ensures var s := BuildRecord(recordSize, num, name, parent, isDirectory, data);
            if s.Success? then r == Success(()) && record[..] == s.value else r == Failure(s.error)
  {
    hide Splice, LE, RecordHead, Attr, AttrHead, KeyBytes, StandardInfoValue, IndexRootValue, Utf16, Align8, AttrSize;
    record := new Byte[recordSize](_ => 0);
    BuildBounds(recordSize, num, name, parent, isDirectory, data);
    if recordSize < 54 {
      return Failure(Panicked), record;
    }
    if recordSize < 152 {
      return Failure(NoSpace), record;
    }
    assert record[..] == Zeros(recordSize);
    WriteRecordHead(record, num);
    r := BuildAttributes(record, num, name, parent, isDirectory, data);
  }

  /** The attributes, the end mark and the used size of a record whose header is in place. */
  method BuildAttributes(record: array<Byte>, num: nat, name: string, parent: nat, isDirectory: bool, data: seq<Byte>)
    returns (r: Outcome<()>)
    requires record.Length >= 152 && record[..] == RecordHead(record.Length, num, 0) + Zeros(record.Length - 56)
    modifies record
    ensures var s := BuildRecord(record.Length, num, name, parent, isDirectory, data);
            if s.Success? then r == Success(()) && record[..] == s.value else r == Failure(s.error)
  {
    hide Splice, LE, RecordHead, Attr, AttrHead, KeyBytes, StandardInfoValue, IndexRootValue, Utf16, Align8, AttrSize;
    var n, units := record.Length, Utf16(name);
    StandardSize();
    ghost var filled := RecordHead(n, num, 0);
    ghost var std := Attr(STANDARD_INFO, StandardInfoValue(isDirectory), 0);
    var off := WriteAttr(record, 56, STANDARD_INFO, StandardInfoValue(isDirectory), 0);
    FillNext(filled, n - 56, std);
    filled := filled + std;
    off := WriteFileName(record, 152, parent, units);
    if off.Failure? {
      return off.PropagateFailure();
    }
    NamePadding(filled, n - 152, parent, units);
    ghost var named := Attr(FILE_NAME, KeyBytes(parent, 0, units), 1);
    filled := filled + named;
    var at := off.value;
    if isDirectory {
      off := WriteAttr(record, at, INDEX_ROOT, IndexRootValue(n), 0);
    } else if |data| > MAX_RESIDENT_DATA {
      return Failure(InvalidAttribute);
    } else {
      off := WriteAttr(record, at, DATA, data, 0);
    }
    if off.Failure? {
      return off.PropagateFailure();
    }
    ghost var payload := Payload(n, isDirectory, data);
    FillNext(filled, n - at, payload);
    filled := filled + payload;
    at := off.value;
    if at + 4 > n {
      return Failure(Panicked);
    }
    CopyInto(record, at, LE(4, END_MARK));
    FillNext(filled, n - at, LE(4, END_MARK));
    CopyInto(record, 24, LE(4, Align8(at + 4)));
    BuiltWhole(n, num, std, named, payload, at + 4);
    return Success(());
  }

  lemma StandardSize()
    ensures AttrSize(72) == 96
  {
  }

  /** On zeroed bytes the unpadded name attribute is the padded one. */
  lemma NamePadding(filled: seq<Byte>, n: nat, parent: nat, units: seq<U16>)
    requires AttrSize(66 + 2 * |units|) <= n
    ensures 90 + 2 * |units| <= AttrSize(66 + 2 * |units|)
    ensures Splice(filled + Zeros(n), |filled|, UnpaddedName(parent, units)) ==
            filled + Attr(FILE_NAME, KeyBytes(parent, 0, units), 1) + Zeros(n - AttrSize(66 + 2 * |units|))
  {
  }

  /** Putting the used size into the header of a filled record. */
  lemma BuiltWhole(n: nat, num: nat, std: seq<Byte>, named: seq<Byte>, payload: seq<Byte>, used: nat)
    requires 60 + |std| + |named| + |payload| == used <= n
    ensures Splice(RecordHead(n, num, 0) + std + named + payload + LE(4, END_MARK) + Zeros(n - used), 24,
                   LE(4, Align8(used)))
         == RecordHead(n, num, Align8(used)) + (std + (named + payload)) + LE(4, END_MARK) + Zeros(n - used)
  {
  }

  lemma BuildBounds(recordSize: nat, num: nat, name: string, parent: nat, isDirectory: bool, data: seq<Byte>)
    ensures var r := BuildRecord(recordSize, num, name, parent, isDirectory, data);
      && (recordSize < 54 ==> r == Failure(Panicked))
      && (54 <= recordSize < 152 ==> r == Failure(NoSpace))
  {
  }
}
