/** What reading gives back of a record that was built, and why a new directory stays empty. */
module NtfsBuiltRecord {
  import opened Wrappers
  import opened Text
  import opened Bytes
  import opened NtfsTypes
  import opened NtfsAttributes
  import opened NtfsIndex
  import opened NtfsInsert
  import opened NtfsFixups
  import opened NtfsBuild

  // ----- Reading a built record

  /** A built attribute is walked over as itself, whatever follows. */
  lemma NextBuilt(code: nat, value: seq<Byte>, indexed: Byte, rest: seq<Byte>)
    requires IsKnown(code) && |value| < 0x1_0000
    ensures NextAttribute(Attr(code, value, indexed) + rest) == Attribute(code, Attr(code, value, indexed), true)
    ensures (Attr(code, value, indexed) + rest)[AttrSize(|value|)..] == rest
  {
    hide Value, LE, Pow256;
    var a := Attr(code, value, indexed);
    var s := a + rest;
    assert s[0..4] == LE(4, code) && s[4..8] == LE(4, |a|) && s[8] == 0;
    Widths();
    ValueFits(4, code);
    ValueFits(4, |a|);
    assert s[..|a|] == a;
  }

  lemma AttrFields(code: nat, value: seq<Byte>, indexed: Byte)
    requires |value| < 0x1_0000
    ensures var a := Attr(code, value, indexed);
      && |a| >= 24 && a[9] == 0 && ReadU32(a, 16) == |value| && ReadU16(a, 20) == 24
      && a[24..24 + |value|] == value && a[24..] == value + Zeros(|a| - 24 - |value|)
  {
    hide Value, LE, Pow256;
    var a := Attr(code, value, indexed);
    Widths();
    ValueFits(4, |value|);
    ValueFits(2, 24);
    assert a[16..20] == LE(4, |value|) && a[20..22] == LE(2, 24);
  }

  lemma StopsAtMark(n: nat)
    ensures NextAttribute(LE(4, END_MARK) + Zeros(n)) == Stop
  {
  }

  /** The metadata of a new file or directory. */
  function NewStat(recordSize: nat, name: string, isDirectory: bool, data: seq<Byte>): NtfsStat {
    var named := NO_STAT.(name := Some(ReadBack(name)));
    if isDirectory then named.(isDirectory := true, indexRoot := Some(IndexRootValue(recordSize)))
    else named.(size := |data|, dataRuns := [Resident(data)])
  }

  lemma {:induction false} AbsorbsName(parent: U64, name: string, st: NtfsStat, cs: nat)
    requires |Utf16(name)| <= 255 && st.name.None?
    ensures Absorb(st, FILE_NAME, Attr(FILE_NAME, KeyBytes(parent, 0, Utf16(name)), 1), true, cs) ==
            Success(st.(name := Some(ReadBack(name))))
  {
    hide Value, LE, Attr, DecodeUnits, Utf16, KeyBytes, ParseName;
    var value := KeyBytes(parent, 0, Utf16(name));
    AttrFields(FILE_NAME, value, 1);
    var pad := |Attr(FILE_NAME, value, 1)| - 24 - |value|;
    KeyRoundTrip(parent, 0, Utf16(name), Zeros(pad));
    PadOfEmptyName(|Utf16(name)|);
  }

  lemma PadOfEmptyName(n: nat)
    ensures 2 * n + (AttrSize(66 + 2 * n) - 90 - 2 * n) >= 2
  {
  }

  lemma AbsorbsPayload(recordSize: nat, isDirectory: bool, data: seq<Byte>, st: NtfsStat, cs: nat)
    requires isDirectory || |data| < 0x1_0000
    ensures Absorb(st, if isDirectory then INDEX_ROOT else DATA, Payload(recordSize, isDirectory, data), true, cs) ==
            Success(if isDirectory then st.(isDirectory := true, indexRoot := Some(IndexRootValue(recordSize)))
                    else st.(size := |data|, dataRuns := st.dataRuns + [Resident(data)]))
  {
    hide Value, LE, Attr, IndexRootValue;
    if isDirectory {
      AttrFields(INDEX_ROOT, IndexRootValue(recordSize), 0);
      assert IndexRootValue(recordSize) + Zeros(0) == IndexRootValue(recordSize);
    } else {
      AttrFields(DATA, data, 0);
    }
  }

  /** Walking the attributes of a new record gives back the name, size, contents and kind. */
  lemma {:induction false} StatOfAttributes(recordSize: nat, name: string, parent: U64, isDirectory: bool,
                                            data: seq<Byte>, n: nat, cs: nat)
    requires |Utf16(name)| <= 255 && (isDirectory || |data| < 0x1_0000)
    ensures StatFrom(AttributesOf(recordSize, name, parent, isDirectory, data) + (LE(4, END_MARK) + Zeros(n)),
            NO_STAT, cs)
         == Success(NewStat(recordSize, name, isDirectory, data))
  {
    hide Value, LE, Attr, NextAttribute, Absorb, ReadBack, Utf16, KeyBytes, IndexRootValue, StandardInfoValue;
    var end := LE(4, END_MARK) + Zeros(n);
    var payload := Payload(recordSize, isDirectory, data);
    var key := KeyBytes(parent, 0, Utf16(name));
    var std, named := Attr(STANDARD_INFO, StandardInfoValue(isDirectory), 0), Attr(FILE_NAME, key, 1);
    Assoc(std, named + payload, end);
    Assoc(named, payload, end);
    NextBuilt(STANDARD_INFO, StandardInfoValue(isDirectory), 0, named + payload + end);
    NextBuilt(FILE_NAME, key, 1, payload + end);
    AbsorbsNothing(NO_STAT, std, cs);
    AbsorbsName(parent, name, NO_STAT, cs);
    PayloadWalk(recordSize, isDirectory, data, NO_STAT.(name := Some(ReadBack(name))), n, cs);
    assert [] + [Resident(data)] == [Resident(data)];
    assert StatFrom(named + (payload + end), NO_STAT, cs) ==
           StatFrom(payload + end, NO_STAT.(name := Some(ReadBack(name))), cs);
    assert named + payload + end == named + (payload + end);
  }

  lemma AbsorbsNothing(st: NtfsStat, a: seq<Byte>, cs: nat)
    ensures Absorb(st, STANDARD_INFO, a, true, cs) == Success(st)
  {
  }

  lemma {:induction false} PayloadWalk(recordSize: nat, isDirectory: bool, data: seq<Byte>, st: NtfsStat, n: nat,
                                       cs: nat)
    requires isDirectory || |data| < 0x1_0000
    ensures StatFrom(Payload(recordSize, isDirectory, data) + (LE(4, END_MARK) + Zeros(n)), st, cs) ==
            Success(if isDirectory then st.(isDirectory := true, indexRoot := Some(IndexRootValue(recordSize)))
                    else st.(size := |data|, dataRuns := st.dataRuns + [Resident(data)]))
  {
    hide Value, LE, Attr, NextAttribute, Absorb, IndexRootValue;
    var end := LE(4, END_MARK) + Zeros(n);
    if isDirectory {
      NextBuilt(INDEX_ROOT, IndexRootValue(recordSize), 0, end);
    } else {
      NextBuilt(DATA, data, 0, end);
    }
    AbsorbsPayload(recordSize, isDirectory, data, st, cs);
    StopsAtMark(n);
  }

  // ----- Whole records

  lemma HeadParts(recordSize: nat, num: nat, used: nat, rest: seq<Byte>)
    ensures var b := RecordHead(recordSize, num, used) + rest;
      && b[0..4] == FILE_SIGNATURE && UsaOffset(b) == 48 && UsaCount(b) == 3 && FirstOffset(b) == 56 && b[56..] == rest
  {
    hide Value, LE, Pow256;
    var b := RecordHead(recordSize, num, used) + rest;
    Widths();
    ValueFits(2, 48);
    ValueFits(2, 3);
    ValueFits(2, 56);
    assert b[4..6] == LE(2, 48) && b[6..8] == LE(2, 3) && b[20..22] == LE(2, 56);
  }

  lemma {:induction false} BuiltParts(recordSize: nat, num: nat, name: string, parent: nat, isDirectory: bool,
                                      data: seq<Byte>)
    requires BuildRecord(recordSize, num, name, parent, isDirectory, data).Success?
    ensures var b := BuildRecord(recordSize, num, name, parent, isDirectory, data).value;
      var attrs := AttributesOf(recordSize, name, parent, isDirectory, data);
      && |Utf16(name)| <= 255 && (isDirectory || |data| <= MAX_RESIDENT_DATA) && 60 + |attrs| <= recordSize
      && b[0..4] == FILE_SIGNATURE && UsaOffset(b) == 48 && UsaCount(b) == 3 && FirstOffset(b) == 56
      && b[56..] == attrs + (LE(4, END_MARK) + Zeros(recordSize - 60 - |attrs|))
  {
    hide Value, LE, RecordHead, AttributesOf, UsaOffset, UsaCount, FirstOffset, Utf16, AttrSize;
    var attrs := AttributesOf(recordSize, name, parent, isDirectory, data);
    var head := RecordHead(recordSize, num, Align8(60 + |attrs|));
    var mark, zeros := LE(4, END_MARK), Zeros(recordSize - 60 - |attrs|);
    Assoc(head + attrs, mark, zeros);
    Assoc(head, attrs, mark + zeros);
    HeadParts(recordSize, num, Align8(60 + |attrs|), attrs + (mark + zeros));
  }

  /** Sector sizes whose first two tails keep clear of the signature, the fixup fields and the fixup array of
      a new record. Every power of two from 16 on is one. */
  predicate SectorFits(sector: nat) {
    10 <= sector <= 24 || 28 <= sector <= 48 || sector >= 56
  }

  /** A new record's signature, fixup fields and fixup array keep clear of its sector tails exactly for those
      sector sizes, and its fixups can then be made exactly when two sectors fit into it. */
  lemma BuiltFixups(b: seq<Byte>, sector: nat)
    requires |b| >= 56 && UsaOffset(b) == 48 && UsaCount(b) == 3
    ensures Protected(b, sector) && SignatureClear(b, sector) <==> SectorFits(sector)
    ensures SectorFits(sector) ==> (ReapplyFixups(b, sector).Success? <==> 2 * sector <= |b|)
  {
  }

  /** Metadata depends only on where the attributes start and on the bytes from there on. */
  lemma StatDepends(b: seq<Byte>, c: seq<Byte>, cs: nat)
    requires |b| == |c| >= 22 && FirstOffset(b) == FirstOffset(c) && From(b, FirstOffset(b)) == From(c, FirstOffset(b))
    ensures StatOf(b, cs) == StatOf(c, cs)
  {
  }

  lemma SameRest(b: seq<Byte>, c: seq<Byte>, lo: nat, hi: nat)
    requires SameOutside(b, c, lo, hi) && 22 <= lo <= hi <= |b|
    ensures |b| == |c| && FirstOffset(b) == FirstOffset(c) && b[hi..] == c[hi..]
    ensures b[0..4] == c[0..4] && UsaOffset(b) == UsaOffset(c) && UsaCount(b) == UsaCount(c)
  {
    hide Value;
    assert b[20..22] == c[20..22] && b[4..6] == c[4..6] && b[6..8] == c[6..8];
  }

  /** Any record that is a new one up to its fixup slots has the new one's metadata. */
  lemma StatOfBuilt(recordSize: nat, num: nat, name: string, parent: U64, isDirectory: bool, data: seq<Byte>,
                    r: seq<Byte>, cs: nat)
    requires BuildRecord(recordSize, num, name, parent, isDirectory, data).Success?
    requires SameOutside(BuildRecord(recordSize, num, name, parent, isDirectory, data).value, r, 50, 54)
    ensures StatOf(r, cs) == Success(NewStat(recordSize, name, isDirectory, data))
  {
    hide Value, LE, RecordHead, AttributesOf, UsaOffset, UsaCount, FirstOffset, Utf16, AttrSize, BuildRecord, StatFrom,
         SameOutside;
    BuiltParts(recordSize, num, name, parent, isDirectory, data);
    var b := BuildRecord(recordSize, num, name, parent, isDirectory, data).value;
    SameRest(b, r, 50, 54);
    assert b[56..] == b[54..][2..] && r[56..] == r[54..][2..];
    StatDepends(b, r, cs);
    StatOfAttributes(recordSize, name, parent, isDirectory, data,
                     recordSize - 60 - |AttributesOf(recordSize, name, parent, isDirectory, data)|, cs);
  }

  /** A new record, written to disk with fixups and read back, has the name, size, contents and kind it
      was built with - the name exactly when it is non-NUL ASCII. */
  lemma BuildRoundTrip(recordSize: nat, num: nat, name: string, parent: U64, isDirectory: bool, data: seq<Byte>,
                       sector: nat, cs: nat)
    requires BuildRecord(recordSize, num, name, parent, isDirectory, data).Success?
    requires SectorFits(sector)
    ensures var b := BuildRecord(recordSize, num, name, parent, isDirectory, data).value;
      var w := ReapplyFixups(b, sector);
      && (w.Success? <==> 2 * sector <= recordSize)
      && (w.Success? ==>
            var r := ApplyFixups(w.value, sector);
            && r.Success? && SameOutside(b, r.value, 50, 54)
            && StatOf(r.value, cs) == Success(NewStat(recordSize, name, isDirectory, data)))
      && (NewStat(recordSize, name, isDirectory, data).name == Some(name) <==> IsAscii(name))
  {
    hide Value, AttributesOf, UsaOffset, UsaCount, FirstOffset, Utf16, BuildRecord, ReapplyFixups, ApplyFixups, StatOf,
         SameOutside, Protected;
    BuiltParts(recordSize, num, name, parent, isDirectory, data);
    var b := BuildRecord(recordSize, num, name, parent, isDirectory, data).value;
    BuiltFixups(b, sector);
    ReadBackExact(name);
    if ReapplyFixups(b, sector).Success? {
      ReapplyThenApply(b, sector);
      StatOfBuilt(recordSize, num, name, parent, isDirectory, data,
                  ApplyFixups(ReapplyFixups(b, sector).value, sector).value, cs);
    }
  }

  // ----- A fresh directory

  /** The index of a new directory lists nothing. */
  lemma FreshIndexEmpty(recordSize: nat)
    ensures Entries(IndexRootValue(recordSize)) == []
  {
    hide Value, LE, Pow256;
    var v := IndexRootValue(recordSize);
    assert v[16..20] == LE(4, 32) && v[20..24] == LE(4, 48);
    Widths();
    ValueFits(4, 32);
    ValueFits(4, 48);
  }

  lemma {:induction false} FindFirst(code: nat, value: seq<Byte>, indexed: Byte, rest: seq<Byte>, wanted: nat)
    requires IsKnown(code) && |value| < 0x1_0000
    ensures FindFrom(Attr(code, value, indexed) + rest, wanted) ==
            if code == wanted then Success(0) else Offset(AttrSize(|value|), FindFrom(rest, wanted))
  {
    hide Value, LE, Attr, FindFrom, Pow256;
    FindHead(code, value, indexed, rest);
    FindUnfolds(Attr(code, value, indexed) + rest, wanted);
  }

  lemma FindHead(code: nat, value: seq<Byte>, indexed: Byte, rest: seq<Byte>)
    requires IsKnown(code) && |value| < 0x1_0000
    ensures var s := Attr(code, value, indexed) + rest;
      |s| >= 8 && ReadU32(s, 0) == code && ReadU32(s, 4) == AttrSize(|value|) && s[AttrSize(|value|)..] == rest
  {
    hide Value, LE, Pow256;
    var a := Attr(code, value, indexed);
    var s := a + rest;
    assert s[0..4] == LE(4, code) && s[4..8] == LE(4, |a|);
    Widths();
    ValueFits(4, code);
    ValueFits(4, |a|);
  }

  lemma {:induction false} FindUnfolds(s: seq<Byte>, wanted: nat)
    requires |s| >= 8 && ReadU32(s, 0) != END_MARK && 0 < ReadU32(s, 4) <= |s|
    ensures FindFrom(s, wanted) ==
            if ReadU32(s, 0) == wanted then Success(0)
            else Offset(ReadU32(s, 4), FindFrom(s[ReadU32(s, 4)..], wanted))
  {
  }

  lemma {:induction false} FindEnds(n: nat, wanted: nat)
    requires wanted != END_MARK
    ensures FindFrom(LE(4, END_MARK) + Zeros(n), wanted).Failure?
  {
    hide Value, LE;
    var s := LE(4, END_MARK) + Zeros(n);
    Widths();
    ValueFits(4, END_MARK);
    assert s[0..4] == LE(4, END_MARK);
  }

  /** Where the index root of a new directory is found, and that it has no external index. */
  lemma {:induction false} FreshIndexFound(recordSize: nat, name: string, parent: nat, n: nat)
    requires |Utf16(name)| <= 255
    ensures FindFrom(AttributesOf(recordSize, name, parent, true, []) + (LE(4, END_MARK) + Zeros(n)), INDEX_ROOT) ==
            Success(96 + AttrSize(66 + 2 * |Utf16(name)|))
    ensures FindFrom(AttributesOf(recordSize, name, parent, true, []) + (LE(4, END_MARK) + Zeros(n)),
                     INDEX_ALLOCATION).Failure?
  {
    hide LE, Attr, FindFrom, Utf16, KeyBytes, IndexRootValue, StandardInfoValue, AttrSize;
    FindEnds(n, INDEX_ALLOCATION);
    var end, key := LE(4, END_MARK) + Zeros(n), KeyBytes(parent, 0, Utf16(name));
    var std, named := Attr(STANDARD_INFO, StandardInfoValue(true), 0), Attr(FILE_NAME, key, 1);
    var payload := Payload(recordSize, true, []);
    Assoc(std, named + payload, end);
    Assoc(named, payload, end);
    FindFirst(STANDARD_INFO, StandardInfoValue(true), 0, named + (payload + end), INDEX_ROOT);
    FindFirst(FILE_NAME, key, 1, payload + end, INDEX_ROOT);
    FindFirst(INDEX_ROOT, IndexRootValue(recordSize), 0, end, INDEX_ROOT);
    FindFirst(STANDARD_INFO, StandardInfoValue(true), 0, named + (payload + end), INDEX_ALLOCATION);
    FindFirst(FILE_NAME, key, 1, payload + end, INDEX_ALLOCATION);
    FindFirst(INDEX_ROOT, IndexRootValue(recordSize), 0, end, INDEX_ALLOCATION);
    StandardSize();
  }

  /** No entry can ever be added to a freshly built directory: its index is allocated no larger than
      it is, so the code finds no room (or, in a record without room for the overstated size, a
      corrupt index). */
  lemma FreshDirectoryFull(recordSize: nat, num: nat, name: string, parent: nat, r: seq<Byte>, e: seq<Byte>)
    requires BuildRecord(recordSize, num, name, parent, true, []).Success? && |e| > 0
    requires SameOutside(BuildRecord(recordSize, num, name, parent, true, []).value, r, 50, 54)
    ensures AddEntry(r, e) == Failure(NoSpace) || AddEntry(r, e) == Failure(CorruptedFilesystem)
    ensures FindAttribute(r, INDEX_ALLOCATION).Failure?
  {
    hide Value, LE, AttributesOf, FirstOffset, Utf16, AttrSize, BuildRecord, FindFrom, Splice, Attr;
    BuiltParts(recordSize, num, name, parent, true, []);
    var b := BuildRecord(recordSize, num, name, parent, true, []).value;
    SameRest(b, r, 50, 54);
    assert b[56..] == b[54..][2..] && r[56..] == r[54..][2..];
    FreshIndexFound(recordSize, name, parent, recordSize - 60 - |AttributesOf(recordSize, name, parent, true, [])|);
    FreshHeader(recordSize, num, name, parent, r);
  }

  /** The index header the adding code reads in a fresh directory. */
  lemma {:induction false} FreshHeader(recordSize: nat, num: nat, name: string, parent: nat, r: seq<Byte>)
    requires BuildRecord(recordSize, num, name, parent, true, []).Success?
    requires |r| == recordSize && r[56..] == BuildRecord(recordSize, num, name, parent, true, []).value[56..]
    ensures var at := 152 + AttrSize(66 + 2 * |Utf16(name)|);
      && at + 72 <= |r| && r[at + 8] == 0 && ReadU16(r, at + 20) == 24
      && ReadU32(r, at + 44) == ReadU32(r, at + 48) == 48
  {
    hide Value, LE, AttributesOf, Utf16, BuildRecord, Attr, KeyBytes, IndexRootValue, StandardInfoValue, Pow256;
    BuiltParts(recordSize, num, name, parent, true, []);
    var attrs := AttributesOf(recordSize, name, parent, true, []);
    var at := 152 + AttrSize(66 + 2 * |Utf16(name)|);
    var a := Attr(INDEX_ROOT, IndexRootValue(recordSize), 0);
    FreshTail(recordSize, name, parent);
    var end := LE(4, END_MARK) + Zeros(recordSize - 60 - |attrs|);
    assert r[56..] == attrs + end;
    assert r[at..at + 72] == a by {
      assert attrs[at - 56..] == a;
      assert r[at..at + 72] == (attrs + end)[at - 56..at + 16];
    }
    FreshFields(recordSize);
    assert r[at + 8] == r[at..at + 72][8];
    SliceOfSlice(r, at, at + 72, 20, 22);
    SliceOfSlice(r, at, at + 72, 44, 48);
    SliceOfSlice(r, at, at + 72, 48, 52);
  }

  lemma {:induction false} FreshTail(recordSize: nat, name: string, parent: nat)
    ensures var attrs := AttributesOf(recordSize, name, parent, true, []);
      var at := 96 + AttrSize(66 + 2 * |Utf16(name)|);
      |attrs| == at + 72 && attrs[at..] == Attr(INDEX_ROOT, IndexRootValue(recordSize), 0)
  {
    hide LE, Attr, Utf16, KeyBytes, IndexRootValue, StandardInfoValue;
  }

  lemma FreshFields(recordSize: nat)
    ensures var a := Attr(INDEX_ROOT, IndexRootValue(recordSize), 0);
      |a| == 72 && a[8] == 0 && ReadU16(a, 20) == 24 && ReadU32(a, 44) == ReadU32(a, 48) == 48
  {
    hide Value, LE, Pow256;
    var v := IndexRootValue(recordSize);
    var a := Attr(INDEX_ROOT, v, 0);
    Widths();
    ValueFits(2, 24);
    ValueFits(4, 48);
    assert a[20..22] == LE(2, 24);
    assert v[20..24] == LE(4, 48) && v[24..28] == LE(4, 48);
    assert a[44..48] == v[20..24] && a[48..52] == v[24..28];
  }
}
