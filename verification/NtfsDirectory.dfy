/** Well-formed directory records, and what adding a name changes in one. */
module NtfsDirectory {
  import opened Wrappers
  import opened Bytes
  import opened NtfsTypes
  import opened NtfsAttributes
  import opened NtfsIndex
  import opened NtfsInsert

  // ----- Attribute lists with exactly one, good, index root

  ghost predicate NoIndexRoot(s: seq<Byte>)
    decreases |s|
  {
    match NextAttribute(s)
    case Attribute(code, a, _) => code != INDEX_ROOT && NoIndexRoot(s[|a|..])
    case _ => true
  }

  /** A resident index root whose value, a well-formed index, lies after the attribute header. */
  ghost predicate GoodIndexRoot(a: seq<Byte>, resident: bool) {
    && resident && |a| >= 24
    && 24 <= ReadU16(a, 20) <= |a|
    && GoodIndex(a[ReadU16(a, 20)..])
  }

  /** The driver can walk the attributes up to a good index root, and there is no second one. */
  ghost predicate DirAttributes(s: seq<Byte>)
    decreases |s|
  {
    match NextAttribute(s)
    case Attribute(code, a, resident) =>
      if code == INDEX_ROOT then GoodIndexRoot(a, resident) && NoIndexRoot(s[|a|..])
      else DirAttributes(s[|a|..])
    case _ => false
  }

  /** Where the index root attribute, its value, and the end of both lie in the attribute list. */
  datatype Span = Span(attr: nat, lo: nat, hi: nat)

  ghost function IndexSpan(s: seq<Byte>): (r: Span)
    requires DirAttributes(s)
    ensures r.attr + 24 <= r.lo <= r.hi <= |s|
    decreases |s|
  {
    var n := NextAttribute(s);
    if n.code == INDEX_ROOT then Span(0, ReadU16(n.bytes, 20), |n.bytes|)
    else
      var r := IndexSpan(s[|n.bytes|..]);
      Span(|n.bytes| + r.attr, |n.bytes| + r.lo, |n.bytes| + r.hi)
  }

  ghost function IndexValue(s: seq<Byte>): seq<Byte>
    requires DirAttributes(s)
  {
    s[IndexSpan(s).lo..IndexSpan(s).hi]
  }

  /** The list with another value in the index root. */
  ghost function WithIndex(s: seq<Byte>, v: seq<Byte>): (r: seq<Byte>)
    requires DirAttributes(s) && |v| == |IndexValue(s)|
    ensures |r| == |s|
  {
    Splice(s, IndexSpan(s).lo, v)
  }

  // ----- One step of the walk in the edited list

  /** An attribute is determined by its own bytes and the byte after a header. */
  lemma NextLocal(s: seq<Byte>, t: seq<Byte>, m: nat)
    requires |s| == |t| && 9 <= m <= |s| && s[..m] == t[..m]
    requires NextAttribute(s).Attribute? && |NextAttribute(s).bytes| <= m
    ensures NextAttribute(t) == NextAttribute(s)
  {
    hide Value;
    assert s[..m] == s[0..0 + m] && t[..m] == t[0..0 + m];
    SubSame(s, 0, t, 0, m, 0, 4);
    SubSame(s, 0, t, 0, m, 4, 8);
    SubSame(s, 0, t, 0, m, 0, |NextAttribute(s).bytes|);
    assert s[8] == s[..m][8] == t[..m][8] == t[8];
  }

  /** Changing the value of the first attribute changes only that. */
  lemma NextEdited(s: seq<Byte>, at: nat, v: seq<Byte>)
    requires NextAttribute(s).Attribute? && 24 <= at && at + |v| == |NextAttribute(s).bytes|
    ensures var n := NextAttribute(s);
      && NextAttribute(Splice(s, at, v)) == n.(bytes := Splice(n.bytes, at, v))
      && Splice(s, at, v)[|n.bytes|..] == s[|n.bytes|..]
      && ReadU16(Splice(n.bytes, at, v), 20) == ReadU16(n.bytes, 20)
      && Splice(n.bytes, at, v)[at..] == v
  {
    hide Value;
    var n, t := NextAttribute(s), Splice(s, at, v);
    SpliceOutside(s, at, v, 0, 4);
    SpliceOutside(s, at, v, 4, 8);
    assert t[8] == s[8];
    assert t[..|n.bytes|] == Splice(n.bytes, at, v);
    SpliceOutside(n.bytes, at, v, 20, 22);
  }

  lemma NextBefore(s: seq<Byte>, at: nat, v: seq<Byte>)
    requires NextAttribute(s).Attribute? && |NextAttribute(s).bytes| + 24 <= at && at + |v| <= |s|
    ensures var n := |NextAttribute(s).bytes|;
      && NextAttribute(Splice(s, at, v)) == NextAttribute(s)
      && Splice(s, at, v)[n..] == Splice(s[n..], at - n, v)
  {
    hide Value, NextAttribute;
    var n := |NextAttribute(s).bytes|;
    assert Splice(s, at, v)[..n + 24] == s[..n + 24];
    NextLocal(s, Splice(s, at, v), n + 24);
    assert Splice(s, at, v)[n..] == Splice(s[n..], at - n, v);
  }

  // ----- What the readers make of the edited list

  lemma AbsorbIgnoresIndex(st: NtfsStat, code: nat, a: seq<Byte>, resident: bool, cs: nat, x: Option<seq<Byte>>)
    requires code != INDEX_ROOT
    ensures Absorb(st.(indexRoot := x), code, a, resident, cs) == SetIndex(Absorb(st, code, a, resident, cs), x)
  {
  }

  ghost function SetIndex(r: Outcome<NtfsStat>, x: Option<seq<Byte>>): Outcome<NtfsStat> {
    if r.Success? then Success(r.value.(indexRoot := x)) else r
  }

  lemma {:induction false} StatIgnoresIndex(s: seq<Byte>, st: NtfsStat, cs: nat, x: Option<seq<Byte>>)
    requires NoIndexRoot(s)
    ensures StatFrom(s, st.(indexRoot := x), cs) == SetIndex(StatFrom(s, st, cs), x)
    decreases |s|
  {
    hide NextAttribute, Absorb;
    NextInside(s);
    var n := NextAttribute(s);
    if n.Attribute? {
      AbsorbIgnoresIndex(st, n.code, n.bytes, n.resident, cs, x);
      var absorbed := Absorb(st, n.code, n.bytes, n.resident, cs);
      if absorbed.Success? {
        StatIgnoresIndex(s[|n.bytes|..], absorbed.value, cs, x);
      }
    }
  }

  lemma AbsorbGoodIndex(st: NtfsStat, a: seq<Byte>, resident: bool, cs: nat)
    requires GoodIndexRoot(a, resident)
    ensures Absorb(st, INDEX_ROOT, a, resident, cs) ==
            Success(st.(isDirectory := true, indexRoot := Some(a[ReadU16(a, 20)..])))
  {
  }

  /** Editing the index root of a directory replaces the index in its metadata and nothing else. */
  lemma {:induction false} StatEdited(s: seq<Byte>, v: seq<Byte>, st: NtfsStat, cs: nat)
    requires DirAttributes(s) && |v| == |IndexValue(s)| && GoodIndex(v)
    ensures StatFrom(WithIndex(s, v), st, cs) == SetIndex(StatFrom(s, st, cs), Some(v))
    ensures StatFrom(s, st, cs) == SetIndex(StatFrom(s, st, cs), Some(IndexValue(s)))
    decreases |s|
  {
    hide NextAttribute, Absorb, Splice, GoodIndex, Value;
    NextInside(s);
    var n := NextAttribute(s);
    var rest := s[|n.bytes|..];
    if n.code == INDEX_ROOT {
      IndexAttributeEdited(s, v, st, cs);
    } else {
      NextBefore(s, IndexSpan(s).lo, v);
      RestValue(s);
      var absorbed := Absorb(st, n.code, n.bytes, n.resident, cs);
      if absorbed.Success? {
        StatEdited(rest, v, absorbed.value, cs);
      }
    }
  }

  lemma {:induction false} RestValue(s: seq<Byte>)
    requires DirAttributes(s) && NextAttribute(s).code != INDEX_ROOT
    ensures IndexValue(s) == IndexValue(s[|NextAttribute(s).bytes|..])
  {
    hide NextAttribute, IndexSpan;
    var n := |NextAttribute(s).bytes|;
    SpanBehind(s);
    var r := IndexSpan(s[n..]);
    SliceOfSlice(s, n, |s|, r.lo, r.hi);
  }

  lemma {:induction false} SpanBehind(s: seq<Byte>)
    requires DirAttributes(s) && NextAttribute(s).code != INDEX_ROOT
    ensures var n := |NextAttribute(s).bytes|;
      && n <= |s| && DirAttributes(s[n..])
      && IndexSpan(s).lo == n + IndexSpan(s[n..]).lo && IndexSpan(s).hi == n + IndexSpan(s[n..]).hi
  {
    hide NextAttribute;
  }

  lemma {:induction false} IndexAttributeEdited(s: seq<Byte>, v: seq<Byte>, st: NtfsStat, cs: nat)
    requires DirAttributes(s) && NextAttribute(s).code == INDEX_ROOT
    requires |v| == |IndexValue(s)| && GoodIndex(v)
    ensures StatFrom(WithIndex(s, v), st, cs) == SetIndex(StatFrom(s, st, cs), Some(v))
    ensures StatFrom(s, st, cs) == SetIndex(StatFrom(s, st, cs), Some(IndexValue(s)))
  {
    hide NextAttribute, Absorb, Splice, GoodIndex, Value;
    NextInside(s);
    var n := NextAttribute(s);
    var at: nat := ReadU16(n.bytes, 20);
    var a', rest := Splice(n.bytes, at, v), s[|n.bytes|..];
    NextEdited(s, at, v);
    AbsorbGoodIndex(st, n.bytes, n.resident, cs);
    AbsorbGoodIndex(st, a', n.resident, cs);
    FirstValue(s);
    var dir := st.(isDirectory := true);
    StatIgnoresIndex(rest, dir, cs, Some(v));
    StatIgnoresIndex(rest, dir, cs, Some(IndexValue(s)));
  }

  lemma {:induction false} FirstValue(s: seq<Byte>)
    requires DirAttributes(s) && NextAttribute(s).code == INDEX_ROOT
    ensures var a := NextAttribute(s).bytes; |a| >= 24 && IndexValue(s) == a[ReadU16(a, 20)..]
  {
  }

  /** The edited list is again a directory's, with the index root where it was. */
  lemma {:induction false} StaysDirectory(s: seq<Byte>, v: seq<Byte>)
    requires DirAttributes(s) && |v| == |IndexValue(s)| && GoodIndex(v)
    ensures DirAttributes(WithIndex(s, v)) && IndexSpan(WithIndex(s, v)) == IndexSpan(s)
    decreases |s|
  {
    hide NextAttribute, Splice, GoodIndex, Value;
    NextInside(s);
    var n := NextAttribute(s);
    if n.code == INDEX_ROOT {
      NextEdited(s, ReadU16(n.bytes, 20), v);
    } else {
      NextBefore(s, IndexSpan(s).lo, v);
      RestValue(s);
      StaysDirectory(s[|n.bytes|..], v);
    }
  }

  /** The driver's other walk, which looks for one attribute type, finds the same attribute. */
  lemma {:induction false} FindsIndexRoot(s: seq<Byte>)
    requires DirAttributes(s)
    ensures FindFrom(s, INDEX_ROOT) == Success(IndexSpan(s).attr)
    decreases |s|
  {
    hide Value, GoodIndex;
    var n := NextAttribute(s);
    if n.code != INDEX_ROOT {
      FindsIndexRoot(s[|n.bytes|..]);
    }
  }

  /** Editing the index root does not change where the attributes of another type are found. */
  lemma {:induction false} FindsSame(s: seq<Byte>, v: seq<Byte>, code: nat)
    requires DirAttributes(s) && |v| == |IndexValue(s)| && code != INDEX_ROOT
    ensures FindFrom(WithIndex(s, v), code) == FindFrom(s, code)
    decreases |s|
  {
    hide NextAttribute, Splice, GoodIndex, Value, FindFrom, ReadU32;
    NextInside(s);
    var n, t := NextAttribute(s), WithIndex(s, v);
    if n.code == INDEX_ROOT {
      FirstValue(s);
      NextEdited(s, ReadU16(n.bytes, 20), v);
    } else {
      NextBefore(s, IndexSpan(s).lo, v);
      RestValue(s);
      FindsSame(s[|n.bytes|..], v, code);
    }
    FindStep(s, code);
    FindStep(t, code);
  }

  /** The search for one attribute type steps over the attributes that the walk visits. */
  lemma {:induction false} FindStep(s: seq<Byte>, code: nat)
    requires NextAttribute(s).Attribute?
    ensures var n := NextAttribute(s);
      FindFrom(s, code) ==
      if n.code == code then Success(0)
      else
        match FindFrom(s[|n.bytes|..], code)
        case Failure(e) => Failure(e)
        case Success(at) => Success(|n.bytes| + at)
  {
    hide Value;
  }

  /** The header fields read through the span are those of the attribute. */
  lemma {:induction false} SpanHeader(s: seq<Byte>)
    requires DirAttributes(s)
    ensures var p := IndexSpan(s);
      && s[p.attr + 8] == 0 && p.attr + ReadU16(s, p.attr + 20) == p.lo && GoodIndex(IndexValue(s))
    decreases |s|
  {
    hide Value, GoodIndex, ReadU16, NextAttribute;
    NextPrefix(s);
    var n := NextAttribute(s);
    if n.code == INDEX_ROOT {
      FirstValue(s);
      ReadU16At(s, 0, |n.bytes|, 20);
    } else {
      RestValue(s);
      SpanHeader(s[|n.bytes|..]);
      assert s[|n.bytes|..] == s[|n.bytes|..|s|];
      ReadU16At(s, |n.bytes|, |s|, IndexSpan(s[|n.bytes|..]).attr + 20);
    }
  }

  lemma NextPrefix(s: seq<Byte>)
    ensures var r := NextAttribute(s);
      r.Attribute? ==> 0 < |r.bytes| <= |s| && |s| > 8 && r.bytes == s[0..|r.bytes|] && r.resident == (s[8] == 0)
  {
  }

  lemma ReadU16At(s: seq<Byte>, lo: nat, hi: nat, i: nat)
    requires lo <= hi <= |s| && i + 2 <= hi - lo
    ensures ReadU16(s[lo..hi], i) == ReadU16(s, lo + i)
  {
    SliceOfSlice(s, lo, hi, i, i + 2);
  }

  // ----- Whole records

  /** A directory's file record: its attributes start after the header and contain one good index. */
  ghost predicate GoodDirectory(record: seq<Byte>) {
    && |record| >= 28
    && 28 <= FirstOffset(record) <= |record|
    && DirAttributes(record[FirstOffset(record)..])
  }

  ghost function AttributeList(record: seq<Byte>): seq<Byte>
    requires GoodDirectory(record)
  {
    record[FirstOffset(record)..]
  }

  /** The names in a directory's record. */
  ghost function DirEntries(record: seq<Byte>): seq<DirEntry>
    requires GoodDirectory(record)
  {
    Entries(IndexValue(AttributeList(record)))
  }

  /** All of the directory's index lies in its record. */
  ghost predicate Small(record: seq<Byte>) {
    FindAttribute(record, INDEX_ALLOCATION).Failure?
  }

  lemma SmallByList(record: seq<Byte>)
    requires GoodDirectory(record)
    ensures Small(record) <==> FindFrom(AttributeList(record), INDEX_ALLOCATION).Failure?
  {
    hide FirstOffset, FindFrom, DirAttributes;
  }

  /** The index in the record has room for a name. */
  ghost predicate HasRoom(record: seq<Byte>, units: seq<U16>)
    requires GoodDirectory(record)
  {
    var v := IndexValue(AttributeList(record));
    |v| >= 32 && TotalSize(v) + EntrySize(units) <= AllocatedSize(v)
  }

  ghost function IndexStart(record: seq<Byte>): nat
    requires GoodDirectory(record)
  {
    FirstOffset(record) + IndexSpan(AttributeList(record)).lo
  }

  lemma IndexInRecord(record: seq<Byte>)
    requires GoodDirectory(record)
    ensures var (at, v) := (IndexStart(record), IndexValue(AttributeList(record)));
      && at + |v| <= |record| && v == record[at..at + |v|] && at >= FirstOffset(record) + 24
  {
  }

  lemma GoodIndexSizes(v: seq<Byte>)
    requires GoodIndex(v)
    ensures |v| >= 32 && 32 <= TotalSize(v) <= AllocatedSize(v) && 16 + AllocatedSize(v) <= |v|
  {
  }

  lemma LocateGood(record: seq<Byte>)
    requires GoodDirectory(record)
    ensures var v := IndexValue(AttributeList(record));
      && GoodIndex(v)
      && var attr := FirstOffset(record) + IndexSpan(AttributeList(record)).attr;
      Locate(record)
      == Success(Place(attr, IndexStart(record), IndexStart(record) + 16, TotalSize(v), AllocatedSize(v)))
  {
    hide Value, DirAttributes, FirstOffset, FindFrom, GoodIndex, IndexSpan, Locate;
    var first, s := FirstOffset(record), AttributeList(record);
    var p, v := IndexSpan(s), IndexValue(s);
    FindsIndexRoot(s);
    SpanHeader(s);
    GoodIndexSizes(v);
    IndexInRecord(record);
    SpanInside(s);
    assert s == record[first..|record|];
    assert s[p.attr + 8] == record[first + p.attr + 8];
    ReadU16At(record, first, |record|, p.attr + 20);
    var at := IndexStart(record);
    SliceOfSlice(record, at, at + |v|, 20, 24);
    SliceOfSlice(record, at, at + |v|, 24, 28);
    LocateParts(record, first + p.attr, at, TotalSize(v), AllocatedSize(v));
  }

  lemma {:induction false} SpanInside(s: seq<Byte>)
    requires DirAttributes(s)
    ensures var p := IndexSpan(s); p.attr + 24 <= p.lo <= p.hi <= |s|
  {
  }

  lemma LocateParts(record: seq<Byte>, attr: nat, value: nat, total: nat, room: nat)
    requires FindAttribute(record, INDEX_ROOT) == Success(attr)
    requires attr + 24 <= value && value + 32 <= |record| && record[attr + 8] == 0
    requires attr + ReadU16(record, attr + 20) == value
    requires ReadU32(record, value + 20) == total && ReadU32(record, value + 24) == room
    requires total <= room && value + 16 + room <= |record|
    ensures Locate(record) == Success(Place(attr, value, value + 16, total, room))
  {
    hide Value, FindAttribute;
  }

  /** The record after a successful addition. */
  ghost function Added(record: seq<Byte>, e: seq<Byte>): seq<Byte>
    requires GoodDirectory(record)
    requires |IndexValue(AttributeList(record))| >= 32
    requires TotalSize(IndexValue(AttributeList(record))) + |e| + 16 <= |IndexValue(AttributeList(record))|
  {
    IndexInRecord(record);
    var v := IndexValue(AttributeList(record));
    Splice(Splice(record, IndexStart(record), Inserted(v, e)), 24, LE(4, ReadU32(record, 24) + |e|))
  }

  /** Adding an entry to a good directory fails exactly when the index's allocated size or the used
      size of the record would overflow; otherwise it edits the index value and the used size. */
  lemma AddEntryGood(record: seq<Byte>, e: seq<Byte>)
    requires GoodDirectory(record)
    ensures var v := IndexValue(AttributeList(record));
      && GoodIndex(v)
      && AddEntry(record, e) ==
         if TotalSize(v) + |e| > AllocatedSize(v) then Failure(NoSpace)
         else if ReadU32(record, 24) + |e| >= 0x1_0000_0000 then Failure(Panicked)
         else Success(Added(record, e))
  {
    hide Value, DirAttributes, GoodIndex, TotalSize, AllocatedSize, IndexValue, IndexStart, Locate, Splice;
    LocateGood(record);
    var v, at := IndexValue(AttributeList(record)), IndexStart(record);
    GoodIndexSizes(v);
    IndexInRecord(record);
    if TotalSize(v) + |e| <= AllocatedSize(v) {
      SplicedIndex(record, at, v, e);
    }
  }

  /** The three splices on the record are the insertion into the index value. */
  lemma SplicedIndex(record: seq<Byte>, at: nat, v: seq<Byte>, e: seq<Byte>)
    requires at + |v| <= |record| && v == record[at..at + |v|] && at >= 28
    requires |v| >= 32 && 32 <= TotalSize(v) && TotalSize(v) + |e| + 16 <= |v|
    ensures var end := at + 16 + TotalSize(v);
      var shifted := Splice(record, end - 16 + |e|, record[end - 16..end]);
      var placed := Splice(shifted, end - 16, e);
      var counted := Splice(placed, at + 16 + 4, LE(4, TotalSize(v) + |e|));
      && counted == Splice(record, at, Inserted(v, e)) && ReadU32(counted, 24) == ReadU32(record, 24)
  {
    hide Value, TotalSize, Splice, LE;
    var end := 16 + TotalSize(v);
    var moved, total := v[end - 16..end], LE(4, TotalSize(v) + |e|);
    SliceOfSlice(record, at, at + |v|, end - 16, end);
    SpliceWithin(record, at, |v|, end - 16 + |e|, moved);
    var v1 := Splice(v, end - 16 + |e|, moved);
    var v2 := Splice(v1, end - 16, e);
    SpliceTwice(record, at, v, v1, end - 16, e);
    SpliceTwice(record, at, v, v2, 20, total);
    SpliceOutside(record, at, Splice(v2, 20, total), 24, 28);
  }

  lemma SpliceTwice(record: seq<Byte>, at: nat, v: seq<Byte>, w: seq<Byte>, off: nat, x: seq<Byte>)
    requires at + |v| <= |record| && |w| == |v| && off + |x| <= |w|
    ensures Splice(Splice(record, at, w), at + off, x) == Splice(record, at, Splice(w, off, x))
  {
  }

  /** A good directory stays one, and gains exactly the new name, at the end. */
  lemma AddedIsGood(record: seq<Byte>, e: seq<Byte>)
    requires GoodDirectory(record) && GoodEntry(e)
    requires GoodIndex(IndexValue(AttributeList(record)))
    requires TotalSize(IndexValue(AttributeList(record))) + |e| <= AllocatedSize(IndexValue(AttributeList(record)))
    ensures var (r, v) := (Added(record, e), IndexValue(AttributeList(record)));
      && GoodIndex(Inserted(v, e)) && |Inserted(v, e)| == |v|
      && |r| == |record| && r[..24] == record[..24] && r[28..FirstOffset(record)] == record[28..FirstOffset(record)]
      && FirstOffset(r) == FirstOffset(record)
      && GoodDirectory(r) && AttributeList(r) == WithIndex(AttributeList(record), Inserted(v, e))
      && DirEntries(r) == DirEntries(record) + EntryAt(e, 0)
  {
    hide Value, DirAttributes, GoodIndex, TotalSize, AllocatedSize, Inserted, Splice, IndexSpan, GoodEntry, EntryAt,
         Entries, LE;
    var s, v := AttributeList(record), IndexValue(AttributeList(record));
    GoodIndexSizes(v);
    InsertAppends(v, e);
    StaysDirectory(s, Inserted(v, e));
    IndexInRecord(record);
    AddedParts(record, e);
    WithIndexValue(s, Inserted(v, e));
  }

  lemma {:induction false} WithIndexValue(s: seq<Byte>, v: seq<Byte>)
    requires DirAttributes(s) && |v| == |IndexValue(s)|
    requires DirAttributes(WithIndex(s, v)) && IndexSpan(WithIndex(s, v)) == IndexSpan(s)
    ensures IndexValue(WithIndex(s, v)) == v
  {
  }

  lemma AddedParts(record: seq<Byte>, e: seq<Byte>)
    requires GoodDirectory(record) && |IndexValue(AttributeList(record))| >= 32
    requires TotalSize(IndexValue(AttributeList(record))) + |e| + 16 <= |IndexValue(AttributeList(record))|
    ensures var (r, first) := (Added(record, e), FirstOffset(record));
      && |r| == |record| && r[..24] == record[..24] && r[28..first] == record[28..first]
      && FirstOffset(r) == first
      && r[first..] == WithIndex(AttributeList(record), Inserted(IndexValue(AttributeList(record)), e))
  {
    hide Value, DirAttributes, TotalSize, Inserted, IndexSpan, LE, Splice;
    var first, at, v := FirstOffset(record), IndexStart(record), IndexValue(AttributeList(record));
    IndexInRecord(record);
    var used := LE(4, ReadU32(record, 24) + |e|);
    var r1 := Splice(record, at, Inserted(v, e));
    SpliceOutside(record, at, Inserted(v, e), 0, 24);
    SpliceOutside(r1, 24, used, 0, 24);
    SpliceOutside(record, at, Inserted(v, e), 28, first);
    SpliceOutside(r1, 24, used, 28, first);
    SpliceOutside(record, at, Inserted(v, e), 20, 22);
    SpliceOutside(r1, 24, used, 20, 22);
    SpliceOutside(r1, 24, used, first, |r1|);
    SpliceTail(record, first, at, Inserted(v, e));
    var r := Added(record, e);
    assert r[0..24] == r[..24] && record[0..24] == record[..24];
    assert r[first..|r|] == r[first..] && r1[first..|r1|] == r1[first..];
  }
}
