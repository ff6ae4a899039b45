/** Adding a name to the index root inside a directory's file record. */
module NtfsInsert {
  import opened Wrappers
  import opened Text
  import opened Bytes
  import opened NtfsTypes
  import opened NtfsAttributes
  import opened NtfsIndex

  function Align8(n: nat): (r: nat)
    ensures n <= r < n + 8 && r % 8 == 0
  {
    (n + 7) / 8 * 8
  }

  /** The fixed part of a file-name key: parent, zeroed times and sizes, flags, name length, namespace. */
  function KeyHead(parent: nat, flags: nat, n: nat): (s: seq<Byte>)
    ensures |s| == 66
  {
    LE(8, parent) + Zeros(48) + LE(4, flags) + Zeros(4) + [n % 256, 1]
  }

  /** A file-name key: the fixed part and the name. */
  function KeyBytes(parent: nat, flags: nat, units: seq<U16>): (s: seq<Byte>)
    ensures |s| == 66 + 2 * |units|
  {
    KeyHead(parent, flags, |units|) + UnitBytes(units)
  }

  lemma KeyHeadParts(parent: nat, flags: nat, n: nat, rest: seq<Byte>)
    ensures var s := KeyHead(parent, flags, n) + rest;
            s[0..8] == LE(8, parent) && s[0x40] == n % 256 && s[0x42..] == rest
  {
  }

  function EntryHead(child: nat, units: seq<U16>): (s: seq<Byte>)
    ensures |s| == 16
  {
    LE(8, child) + LE(2, EntrySize(units)) + LE(2, 66 + 2 * |units|) + LE(2, 0) + LE(2, 0)
  }

  function EntrySize(units: seq<U16>): nat {
    Align8(82 + 2 * |units|)
  }

  function EntryBytes(child: nat, parent: nat, units: seq<U16>): (s: seq<Byte>)
    ensures |s| == EntrySize(units)
  {
    EntryHead(child, units) + KeyBytes(parent, 0x10, units) + Zeros(EntrySize(units) - 82 - 2 * |units|)
  }

  /** A stored name and parent are read back, with or without padding, unless the name is empty and
      nothing follows it. */
  lemma {:induction false} KeyRoundTrip(parent: U64, flags: nat, units: seq<U16>, rest: seq<Byte>)
    requires |units| <= 255
    ensures ParseName(KeyBytes(parent, flags, units) + rest) ==
            if 2 * |units| + |rest| < 2 then None else Some((DecodeUnits(units), parent))
  {
    hide Value, LE, DecodeUnits, UnitBytes, UnitsIn, KeyHead, ParseName, ReadU64;
    KeyParts(parent, flags, units, rest);
    UnitsStored(units, rest);
    ParseNameParts(KeyBytes(parent, flags, units) + rest, |units|);
  }

  lemma {:induction false} KeyParts(parent: U64, flags: nat, units: seq<U16>, rest: seq<Byte>)
    requires |units| <= 255
    ensures var key := KeyBytes(parent, flags, units) + rest;
      |key| == 66 + 2 * |units| + |rest| && ReadU64(key, 0) == parent && key[0x40] == |units|
      && key[0x42..] == UnitBytes(units) + rest
  {
    hide Value, LE, UnitBytes, KeyHead;
    Assoc(KeyHead(parent, flags, |units|), UnitBytes(units), rest);
    KeyHeadParts(parent, flags, |units|, UnitBytes(units) + rest);
    Widths();
    ValueFits(8, parent);
  }

  lemma {:induction false} ParseNameParts(key: seq<Byte>, n: nat)
    requires |key| >= 66 + 2 * n && key[0x40] == n
    ensures ParseName(key) ==
            if |key| < 68 then None else Some((DecodeUnits(UnitsIn(key[0x42..], n)), ReadU64(key, 0)))
  {
  }

  lemma {:induction false} NewEntryGood(child: U64, parent: U64, units: seq<U16>)
    requires |units| <= 255
    ensures GoodEntry(EntryBytes(child, parent, units))
    ensures EntryAt(EntryBytes(child, parent, units), 0) ==
            if units == [] then [] else [DirEntry(child, DecodeUnits(units))]
  {
    hide Value, LE, DecodeUnits, ParseName, KeyBytes, EntryHead, EntryLength, KeyLength, IsEnd, EntryAt, EntryBytes,
         ReadU64;
    var e, key := EntryBytes(child, parent, units), KeyBytes(parent, 0x10, units);
    EntryLayout(child, parent, units);
    KeyAlone(parent, 0x10, units);
    EntryReads(e, key);
  }

  lemma {:induction false} KeyAlone(parent: U64, flags: nat, units: seq<U16>)
    requires |units| <= 255
    ensures ParseName(KeyBytes(parent, flags, units)) ==
            if units == [] then None else Some((DecodeUnits(units), parent))
  {
    hide Value, LE, DecodeUnits, UnitBytes, UnitsIn, KeyHead, ParseName;
    KeyRoundTrip(parent, flags, units, []);
    assert KeyBytes(parent, flags, units) + [] == KeyBytes(parent, flags, units);
  }

  lemma EntryLayout(child: U64, parent: U64, units: seq<U16>)
    requires |units| <= 255
    ensures var (e, key) := (EntryBytes(child, parent, units), KeyBytes(parent, 0x10, units));
      && |e| >= 16 + |key| && e[16..16 + |key|] == key
      && ReadU64(e, 0) == child && EntryLength(e, 0) == |e| && KeyLength(e, 0) == |key| && !IsEnd(e, 0)
  {
    hide Value, LE, KeyBytes, EntryHead, EntryLength, KeyLength, IsEnd;
    var head, key := EntryHead(child, units), KeyBytes(parent, 0x10, units);
    var pad := Zeros(EntrySize(units) - 82 - 2 * |units|);
    EntryHeader(child, units, key + pad);
    Assoc(head, key, pad);
    MiddlePart(head, key, pad);
  }

  lemma EntryReads(e: seq<Byte>, key: seq<Byte>)
    requires |key| > 0 && 16 + |key| <= |e| && KeyLength(e, 0) == |key| && e[16..16 + |key|] == key
    ensures EntryAt(e, 0) ==
            match ParseName(key) case None => [] case Some((name, _)) => [DirEntry(ReadU64(e, 0), name)]
  {
  }

  lemma MiddlePart(a: seq<Byte>, b: seq<Byte>, c: seq<Byte>)
    ensures (a + b + c)[|a|..|a| + |b|] == b
  {
  }

  lemma EntryHeader(child: U64, units: seq<U16>, rest: seq<Byte>)
    requires |units| <= 255
    ensures var e := EntryHead(child, units) + rest;
      && ReadU64(e, 0) == child && EntryLength(e, 0) == EntrySize(units) && KeyLength(e, 0) == 66 + 2 * |units|
      && !IsEnd(e, 0)
  {
    hide Value, LE;
    var e := EntryHead(child, units) + rest;
    Widths();
    assert e[0..8] == LE(8, child) && e[8..10] == LE(2, EntrySize(units));
    assert e[10..12] == LE(2, 66 + 2 * |units|) && e[12..14] == LE(2, 0);
    ValueFits(8, child);
    ValueFits(2, EntrySize(units));
    ValueFits(2, 66 + 2 * |units|);
    ValueFits(2, 0);
  }

  // ----- The splice, on a whole record

  /** Where the pieces of the index root lie in the record. */
  datatype Place = Place(attr: nat, value: nat, header: nat, total: nat, room: nat)

  /** Finding the index root and checking that its header and its end lie inside the record. */
  function Locate(record: seq<Byte>): (r: Outcome<Place>)
    ensures r.Success? ==>
      var p := r.value;
      && p.header == p.value + 16 && p.header + 12 <= |record|
      && 16 <= p.header + p.total <= |record|
  {
    var at := FindAttribute(record, INDEX_ROOT);
    if at.Failure? then Failure(InvalidAttribute)
    else if at.value + 8 >= |record| || record[at.value + 8] != 0 then Failure(NotSupported)
    else if at.value + 22 >= |record| then Failure(CorruptedFilesystem)
    else
      var value: nat := at.value + ReadU16(record, at.value + 20);
      var header := value + 16;
      if header + 12 > |record| then Failure(CorruptedFilesystem)
      else
        var total: nat := ReadU32(record, header + 4);
        if header + total < 16 || header + total > |record| then Failure(CorruptedFilesystem)
        else Success(Place(at.value, value, header, total, ReadU32(record, header + 8)))
  }

  /** The record with the entry spliced in, the index's total size and the record's used size brought
      up to date. The used size is added up in checked 32-bit arithmetic. */
  function AddEntry(record: seq<Byte>, e: seq<Byte>): (r: Outcome<seq<Byte>>)
    ensures r.Success? ==> |r.value| == |record|
  {
    var p :- Locate(record);
    var end := p.header + p.total;
    if p.total + |e| > p.room || end + |e| > |record| then Failure(NoSpace)
    else
      var shifted := Splice(record, end - 16 + |e|, record[end - 16..end]);
      var placed := Splice(shifted, end - 16, e);
      var counted := Splice(placed, p.header + 4, LE(4, p.total + |e|));
      if ReadU32(counted, 24) + |e| >= 0x1_0000_0000 then Failure(Panicked)
      else Success(Splice(counted, 24, LE(4, ReadU32(counted, 24) + |e|)))
  }

  method LocateIndex(record: seq<Byte>) returns (r: Outcome<Place>)
    ensures r == Locate(record)
  {
    hide Value, FindAttribute;
    var at := FindAttributeOffset(record, INDEX_ROOT);
    if at.Failure? {
      return Failure(InvalidAttribute);
    }
    if at.value + 8 >= |record| || record[at.value + 8] != 0 {
      return Failure(NotSupported);
    }
    if at.value + 22 >= |record| {
      return Failure(CorruptedFilesystem);
    }
    var value := at.value + ReadU16(record, at.value + 20);
    var header := value + 16;
    if header + 12 > |record| {
      return Failure(CorruptedFilesystem);
    }
    var total := ReadU32(record, header + 4);
    if header + total < 16 || header + total > |record| {
      return Failure(CorruptedFilesystem);
    }
    return Success(Place(at.value, value, header, total, ReadU32(record, header + 8)));
  }

  /** The in-place part of adding an entry to a resident index. */
  method AddToResidentIndex(record: array<Byte>, child: nat, parent: nat, name: string) returns (r: Outcome<()>)
    modifies record
    ensures var s := AddEntry(old(record[..]), EntryBytes(child, parent, Utf16(name)));
            if s.Success? then r == Success(()) && record[..] == s.value else r == Failure(s.error)
    ensures r == Failure(NoSpace) ==> record[..] == old(record[..])
  {
    hide Splice, Locate, EntryBytes, Value;
    var place := LocateIndex(record[..]);
    if place.Failure? {
      return place.PropagateFailure();
    }
    LocateInside(record[..]);
    var p := place.value;
    var end, units := p.header + p.total, Utf16(name);
    var length := EntrySize(units);
    if p.total + length > p.room || end + length > record.Length {
      return Failure(NoSpace);
    }
    CopyInto(record, end - 16 + length, record[end - 16..end]);
    var entry := BuildEntry(child, parent, units);
    CopyInto(record, end - 16, entry);
    CopyInto(record, p.header + 4, LE(4, p.total + length));
    var used := ReadU32(record[..], 24);
    if used + length >= 0x1_0000_0000 {
      return Failure(Panicked);
    }
    CopyInto(record, 24, LE(4, used + length));
    return Success(());
  }

  lemma LocateInside(record: seq<Byte>)
    ensures Locate(record).Success? ==>
      var p := Locate(record).value;
      && p.header == p.value + 16 && p.header + 12 <= |record|
      && 16 <= p.header + p.total <= |record|
  {
  }

  /** Filling a zeroed entry field by field. */
  method BuildEntry(child: nat, parent: nat, units: seq<U16>) returns (entry: seq<Byte>)
    ensures entry == EntryBytes(child, parent, units)
  {
    hide Splice, LE;
    var size, keyLength := EntrySize(units), 66 + 2 * |units|;
    var e := new Byte[size](_ => 0);
    assert e[..] == Zeros(size);
    CopyInto(e, 0, EntryHead(child, units));
    var key := BuildKey(parent, 0x10, units);
    CopyInto(e, 16, key);
    EntryFilled(child, parent, units);
    return e[..];
  }

  lemma EntryFilled(child: nat, parent: nat, units: seq<U16>)
    ensures Splice(Splice(Zeros(EntrySize(units)), 0, EntryHead(child, units)), 16, KeyBytes(parent, 0x10, units)) ==
            EntryBytes(child, parent, units)
  {
  }

  method BuildKey(parent: nat, flags: nat, units: seq<U16>) returns (key: seq<Byte>)
    ensures key == KeyBytes(parent, flags, units)
  {
    hide Splice;
    var k := new Byte[66 + 2 * |units|](_ => 0);
    assert k[..] == Zeros(66 + 2 * |units|);
    CopyInto(k, 0, LE(8, parent));
    CopyInto(k, 56, LE(4, flags));
    CopyInto(k, 64, [|units| % 256, 1]);
    KeyHeadFilled(parent, flags, units);
    StoreUnits(k, units, 66);
    KeyFilled(parent, flags, units);
    return k[..];
  }

  lemma KeyHeadFilled(parent: nat, flags: nat, units: seq<U16>)
    ensures Splice(Splice(Splice(Zeros(66 + 2 * |units|), 0, LE(8, parent)), 56, LE(4, flags)), 64, [|units| % 256, 1])
         == KeyHead(parent, flags, |units|) + Zeros(2 * |units|)
  {
    hide LE, Splice;
    var n := 2 * |units|;
    HeadFilled(LE(8, parent), LE(4, flags), [|units| % 256, 1], n);
  }

  /** Three fields written into zeros, eight bytes at 0, four at 56 and two at 64. */
  lemma HeadFilled(a: seq<Byte>, b: seq<Byte>, c: seq<Byte>, n: nat)
    requires |a| == 8 && |b| == 4 && |c| == 2
    ensures Splice(Splice(Splice(Zeros(66 + n), 0, a), 56, b), 64, c) == a + Zeros(48) + b + Zeros(4) + c + Zeros(n)
  {
    assert Splice(Zeros(66 + n), 0, a) == a + Zeros(58 + n);
    assert Splice(a + Zeros(58 + n), 56, b) == a + Zeros(48) + b + Zeros(6 + n);
    assert Splice(a + Zeros(48) + b + Zeros(6 + n), 64, c) == a + Zeros(48) + b + Zeros(4) + c + Zeros(n);
  }

  lemma {:induction false} KeyFilled(parent: nat, flags: nat, units: seq<U16>)
    ensures Splice(KeyHead(parent, flags, |units|) + Zeros(2 * |units|), 66, UnitBytes(units)) ==
            KeyBytes(parent, flags, units)
  {
  }

  /** The loop that stores a name unit by unit. */
  method StoreUnits(k: array<Byte>, units: seq<U16>, at: nat)
    requires at + 2 * |units| <= k.Length
    modifies k
    ensures k[..] == Splice(old(k[..]), at, UnitBytes(units))
  {
    hide LE, Splice, UnitBytes;
    ghost var was := k[..];
    NoUnits(was, at);
    assert units[..0] == [];
    for i := 0 to |units|
      invariant k[..] == Splice(was, at, UnitBytes(units[..i]))
    {
      assert units[..i + 1] == units[..i] + [units[i]];
      UnitsAppend(units[..i], units[i]);
      SpliceMore(was, at, UnitBytes(units[..i]), LE(2, units[i]));
      CopyInto(k, at + i * 2, LE(2, units[i]));
    }
    assert units[..|units|] == units;
  }

  lemma NoUnits(b: seq<Byte>, at: nat)
    requires at <= |b|
    ensures UnitBytes([]) == [] && Splice(b, at, []) == b
  {
  }

  lemma {:induction false} UnitsAppend(units: seq<U16>, u: U16)
    ensures UnitBytes(units + [u]) == UnitBytes(units) + LE(2, u)
  {
    if units == [] {
      assert [u][1..] == [] && [u] == [] + [u];
    } else {
      assert (units + [u])[1..] == units[1..] + [u];
      UnitsAppend(units[1..], u);
    }
  }
}
