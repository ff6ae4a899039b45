/** Directory indexes: walking the packed entries and splicing a new entry in before the end entry. */
module NtfsIndex {
  import opened Wrappers
  import opened Arithmetic
  import opened Bytes
  import opened NtfsTypes
  import opened NtfsAttributes

  datatype DirEntry = DirEntry(fileRef: nat, name: string)

  const REF_LIMIT: nat := 0x1_0000_0000_0000

  // ----- One entry, at an offset of a buffer

  function EntryLength(data: seq<Byte>, off: nat): nat
    requires off + 16 <= |data|
  {
    ReadU16(data, off + 8)
  }

  function KeyLength(data: seq<Byte>, off: nat): nat
    requires off + 16 <= |data|
  {
    ReadU16(data, off + 10)
  }

  /** Flag bit 1 marks the end entry. */
  predicate IsEnd(data: seq<Byte>, off: nat)
    requires off + 16 <= |data|
  {
    ReadU16(data, off + 12) / 2 % 2 == 1
  }

  /** That is bit 1 of byte 12. */
  lemma IsEndIff(data: seq<Byte>, off: nat)
    requires off + 16 <= |data|
    ensures IsEnd(data, off) <==> data[off + 12] % 4 >= 2
  {
    U16Is(data, off + 12);
  }

  /** What an entry contributes: nothing if its key is missing, cut off or too short for a name. */
  function EntryAt(data: seq<Byte>, off: nat): (r: seq<DirEntry>)
    requires off + 16 <= |data|
    ensures |r| <= 1
  {
    var klen := KeyLength(data, off);
    if klen == 0 || off + 16 + klen > |data| then []
    else
      match ParseName(data[off + 16..off + 16 + klen])
      case None => []
      case Some((name, _)) => [DirEntry(ReadU64(data, off), name)]
  }

  function Walk(data: seq<Byte>, off: nat, end: nat): seq<DirEntry>
    decreases |data| - off
  {
    if off + 16 > end || off + 16 > |data| || IsEnd(data, off) then []
    else if EntryLength(data, off) == 0 then EntryAt(data, off)
    else EntryAt(data, off) + Walk(data, off + EntryLength(data, off), end)
  }

  function FirstEntry(data: seq<Byte>): nat
    requires |data| >= 32
  {
    ReadU32(data, 16)
  }

  function TotalSize(data: seq<Byte>): nat
    requires |data| >= 32
  {
    ReadU32(data, 20)
  }

  function AllocatedSize(data: seq<Byte>): nat
    requires |data| >= 32
  {
    ReadU32(data, 24)
  }

  /** The entries of an index root, as both readers see them. */
  function Entries(data: seq<Byte>): seq<DirEntry> {
    if |data| < 32 then [] else Walk(data, 16 + FirstEntry(data), 16 + TotalSize(data))
  }

  function Names(es: seq<DirEntry>): seq<string> {
    if es == [] then [] else [es[0].name] + Names(es[1..])
  }

  /** The first entry with the name, letter case aside. */
  function Lookup(es: seq<DirEntry>, name: string): Outcome<nat> {
    if es == [] then Failure(FileNotFound)
    else if SameName(es[0].name, name) then Success(es[0].fileRef % REF_LIMIT)
    else Lookup(es[1..], name)
  }

  // ----- The program's readers

  lemma {:induction false} NamesAppend(a: seq<DirEntry>, b: seq<DirEntry>)
    ensures Names(a + b) == Names(a) + Names(b)
  {
    if a == [] {
      assert a + b == b && Names(a) + Names(b) == Names(b);
    } else {
      assert (a + b)[1..] == a[1..] + b;
      NamesAppend(a[1..], b);
    }
  }

  lemma {:induction false} LookupAppend(a: seq<DirEntry>, b: seq<DirEntry>, name: string)
    ensures Lookup(a + b, name) == if Lookup(a, name).Success? then Lookup(a, name) else Lookup(b, name)
  {
    if a == [] {
      assert a + b == b;
    } else {
      assert (a + b)[1..] == a[1..] + b;
      LookupAppend(a[1..], b, name);
    }
  }

  /** The record number of a reference is its low 48 bits; the sequence number above them is ignored. */
  lemma {:induction false} LookupGives(es: seq<DirEntry>, name: string, i: nat, n: nat, q: nat)
    requires i < |es| && SameName(es[i].name, name) && forall j | 0 <= j < i :: !SameName(es[j].name, name)
    requires n < 0x1_0000_0000_0000 && es[i].fileRef == n + q * 0x1_0000_0000_0000
    ensures Lookup(es, name) == Success(n)
  {
    if i > 0 {
      LookupGives(es[1..], name, i - 1, n, q);
    } else {
      DivModUnique(es[0].fileRef, REF_LIMIT, q, n);
    }
  }

  /** The walk meets an entry of the name for the first time at `at`. */
  ghost predicate FirstNamed(data: seq<Byte>, off: nat, end: nat, name: string, at: nat)
    decreases |data| - off
  {
    && off + 16 <= end && off + 16 <= |data| && !IsEnd(data, off)
    && var e := EntryAt(data, off);
       var here := e != [] && SameName(e[0].name, name);
       if off == at then here
       else !here && EntryLength(data, off) > 0 && FirstNamed(data, off + EntryLength(data, off), end, name, at)
  }

  /** Looking a name up answers with what the first eight bytes of its entry hold: six bytes of record number, and
      two of a sequence number that does not matter. */
  lemma {:induction false} WalkGives(data: seq<Byte>, off: nat, end: nat, name: string, at: nat, n: nat, q: U16)
    requires FirstNamed(data, off, end, name, at) && n < 0x1_0000_0000_0000
    requires at + 8 <= |data| && data[at..at + 8] == LE(6, n) + LE(2, q)
    ensures Lookup(Walk(data, off, end), name) == Success(n)
    decreases |data| - off
  {
    hide EntryAt, IsEnd, EntryLength, LE;
    var e := EntryAt(data, off);
    if off == at {
      ReferenceParts(data, at, n, q);
      NamedReference(data, at);
      LookupGives(Walk(data, off, end), name, 0, n, q);
    } else {
      var next := off + EntryLength(data, off);
      WalkGives(data, next, end, name, at, n, q);
      LookupAppend(e, Walk(data, next, end), name);
      NotNamed(e, name);
    }
  }

  lemma NamedReference(data: seq<Byte>, at: nat)
    requires at + 16 <= |data| && EntryAt(data, at) != []
    ensures EntryAt(data, at)[0].fileRef == ReadU64(data, at)
  {
  }

  lemma {:induction false} NotNamed(e: seq<DirEntry>, name: string)
    requires |e| <= 1 && (e != [] ==> !SameName(e[0].name, name))
    ensures Lookup(e, name).Failure?
  {
  }

  lemma ReferenceParts(data: seq<Byte>, at: nat, n: nat, q: U16)
    requires at + 8 <= |data| && n < 0x1_0000_0000_0000 && data[at..at + 8] == LE(6, n) + LE(2, q)
    ensures ReadU64(data, at) == n + q * 0x1_0000_0000_0000
  {
    hide LE, Value;
    SixAndTwo(LE(6, n), LE(2, q));
    Widths();
    assert Pow256(6) == 0x1_0000_0000_0000;
    ValueFits(6, n);
    ValueFits(2, q);
  }

  lemma {:induction false} SixAndTwo(a: seq<Byte>, b: seq<Byte>)
    requires |a| == 6 && |b| == 2
    ensures Value(a + b) == Value(a) + 0x1_0000_0000_0000 * Value(b)
  {
    hide Value;
    FourBytes(a);
    FourBytes(a + b);
    assert (a + b)[4..] == a[4..] + b;
    FourBytes(a[4..] + b);
    FourBytes(a[4..]);
    FourBytes(b);
    assert (a[4..] + b)[4..] == [];
    assert Value([]) == 0 by {
      NoBytes();
    }
  }

  lemma NoBytes()
    ensures Value([]) == 0
  {
  }

  /** The first entry of that name begins with the record number `n` in six bytes and a sequence number `q` in
      two. */
  ghost predicate NameRefers(data: seq<Byte>, name: string, at: nat, n: nat, q: U16) {
    && |data| >= 32 && FirstNamed(data, 16 + FirstEntry(data), 16 + TotalSize(data), name, at)
    && n < 0x1_0000_0000_0000 && at + 8 <= |data| && data[at..at + 8] == LE(6, n) + LE(2, q)
  }

  lemma {:induction false} FindGives(data: seq<Byte>, name: string, at: nat, n: nat, q: U16)
    requires NameRefers(data, name, at, n, q)
    ensures Lookup(Entries(data), name) == Success(n)
  {
    WalkGives(data, 16 + FirstEntry(data), 16 + TotalSize(data), name, at, n, q);
  }

  /** A lookup fails exactly when no entry has the name, letter case aside, and always in the same way. */
  lemma {:induction false} LookupFailsIff(es: seq<DirEntry>, name: string)
    ensures Lookup(es, name) == Failure(FileNotFound) <==> forall i | 0 <= i < |es| :: !SameName(es[i].name, name)
    ensures Lookup(es, name).Failure? ==> Lookup(es, name) == Failure(FileNotFound)
  {
    if es != [] {
      LookupFailsIff(es[1..], name);
    }
  }

  /** Where the walk goes on after the entry at `off`, if it does. */
  function Next(data: seq<Byte>, off: nat): (r: Option<nat>)
    requires off + 16 <= |data|
    ensures r.Some? ==> off < r.value
  {
    if EntryLength(data, off) == 0 then None else Some(off + EntryLength(data, off))
  }

  predicate More(data: seq<Byte>, at: Option<nat>, end: nat) {
    at.Some? && at.value + 16 <= end && at.value + 16 <= |data| && !IsEnd(data, at.value)
  }

  ghost function WalkOn(data: seq<Byte>, at: Option<nat>, end: nat): seq<DirEntry> {
    if at.None? then [] else Walk(data, at.value, end)
  }

  lemma WalkUnfolds(data: seq<Byte>, at: Option<nat>, end: nat)
    ensures WalkOn(data, at, end) ==
            if More(data, at, end) then EntryAt(data, at.value) + WalkOn(data, Next(data, at.value), end) else []
  {
    if More(data, at, end) && EntryLength(data, at.value) == 0 {
      assert EntryAt(data, at.value) + [] == EntryAt(data, at.value);
    }
  }

  method ListFrom(data: seq<Byte>, first: nat, end: nat) returns (names: seq<string>)
    ensures names == Names(Walk(data, first, end))
  {
    hide Next, More, WalkOn, EntryAt, Walk, Names;
    var at: Option<nat> := Some(first);
    names := [];
    ghost var seen: seq<DirEntry> := [];
    ListStart(data, first, end);
    while More(data, at, end)
      invariant Walk(data, first, end) == seen + WalkOn(data, at, end) && names == Names(seen)
      decreases |data| - at.GetOr(|data|)
    {
      WalkUnfolds(data, at, end);
      MoreInside(data, at, end);
      var here := EntryAt(data, at.value);
      at := Next(data, at.value);
      NamesAppend(seen, here);
      AssocEntries(seen, here, WalkOn(data, at, end));
      seen, names := seen + here, names + Names(here);
    }
    WalkUnfolds(data, at, end);
    AssocEntries(seen, [], []);
  }

  lemma {:induction false} ListStart(data: seq<Byte>, first: nat, end: nat)
    ensures Walk(data, first, end) == [] + WalkOn(data, Some(first), end) == WalkOn(data, Some(first), end)
    ensures Names([]) == []
  {
  }

  lemma MoreInside(data: seq<Byte>, at: Option<nat>, end: nat)
    requires More(data, at, end)
    ensures at.Some? && at.value + 16 <= |data|
  {
  }

  lemma AssocEntries(a: seq<DirEntry>, b: seq<DirEntry>, c: seq<DirEntry>)
    ensures a + (b + c) == a + b + c
    ensures a + [] == a
  {
  }

  method ListDirectory(data: seq<Byte>) returns (names: seq<string>)
    ensures names == Names(Entries(data))
  {
    if |data| < 32 {
      return [];
    }
    names := ListFrom(data, 16 + FirstEntry(data), 16 + TotalSize(data));
  }

  method FindIn(data: seq<Byte>, first: nat, end: nat, name: string) returns (r: Outcome<nat>)
    ensures r == Lookup(Walk(data, first, end), name)
  {
    hide Next, More, WalkOn, EntryAt, Walk, Lookup;
    var at: Option<nat> := Some(first);
    ListStart(data, first, end);
    ghost var goal := Lookup(Walk(data, first, end), name);
    while More(data, at, end)
      invariant goal == Lookup(WalkOn(data, at, end), name)
      decreases |data| - at.GetOr(|data|)
    {
      WalkUnfolds(data, at, end);
      MoreInside(data, at, end);
      var here := EntryAt(data, at.value);
      at := Next(data, at.value);
      LookupAppend(here, WalkOn(data, at, end), name);
      r := Lookup(here, name);
      if r.Success? {
        return;
      }
    }
    WalkUnfolds(data, at, end);
    NothingFound(name);
    return Failure(FileNotFound);
  }

  lemma {:induction false} NothingFound(name: string)
    ensures Lookup([], name) == Failure(FileNotFound)
  {
  }

  method FindInDirectory(data: seq<Byte>, name: string) returns (r: Outcome<nat>)
    ensures r == Lookup(Entries(data), name)
    ensures forall at: nat, n: nat, q: U16 | NameRefers(data, name, at, n, q) :: r == Success(n)
  {
    hide Lookup, Entries, NameRefers;
    forall at: nat, n: nat, q: U16 | NameRefers(data, name, at, n, q)
      ensures Lookup(Entries(data), name) == Success(n)
    {
      FindGives(data, name, at, n, q);
    }
    SmallIndex(data, name);
    if |data| < 32 {
      return Failure(FileNotFound);
    }
    r := FindIn(data, 16 + FirstEntry(data), 16 + TotalSize(data), name);
  }

  lemma {:induction false} SmallIndex(data: seq<Byte>, name: string)
    ensures Lookup(Entries(data), name) == if |data| < 32 then Failure(FileNotFound)
                                           else Lookup(Walk(data, 16 + FirstEntry(data), 16 + TotalSize(data)), name)
  {
  }

  // ----- Well-formed indexes

  /** From `off` on, entries with their keys inside follow each other up to a 16-byte end entry that
      ends exactly at `end`. */
  ghost predicate GoodEntries(data: seq<Byte>, off: nat, end: nat)
    decreases |data| - off
  {
    && off + 16 <= end <= |data|
    && if off + 16 == end then IsEnd(data, off)
       else
         && !IsEnd(data, off)
         && 16 + KeyLength(data, off) <= EntryLength(data, off) && off + EntryLength(data, off) + 16 <= end
         && GoodEntries(data, off + EntryLength(data, off), end)
  }

  /** The header fields are in order and the allocated size lies inside the value. */
  ghost predicate GoodIndex(data: seq<Byte>) {
    && |data| >= 32
    && 16 <= FirstEntry(data)
    && TotalSize(data) <= AllocatedSize(data) && 16 + AllocatedSize(data) <= |data|
    && GoodEntries(data, 16 + FirstEntry(data), 16 + TotalSize(data))
  }

  /** An entry on its own: its length field is right, its key lies inside, it is not an end entry. */
  ghost predicate GoodEntry(e: seq<Byte>) {
    |e| >= 16 && EntryLength(e, 0) == |e| && 16 + KeyLength(e, 0) <= |e| && !IsEnd(e, 0)
  }

  /** `data` with the end entry moved up and `e` in its place, and the total size brought up to date. */
  function Inserted(data: seq<Byte>, e: seq<Byte>): (r: seq<Byte>)
    requires |data| >= 32 && TotalSize(data) + |e| + 16 <= |data|
    ensures |r| == |data|
  {
    var end := 16 + TotalSize(data);
    var shifted := Splice(data, end - 16 + |e|, data[end - 16..end]);
    Splice(Splice(shifted, end - 16, e), 20, LE(4, TotalSize(data) + |e|))
  }

  /** The same bytes are the same entry, wherever they lie. */
  lemma SameEntry(a: seq<Byte>, i: nat, b: seq<Byte>, j: nat, m: nat)
    requires 16 <= m && i + m <= |a| && j + m <= |b| && a[i..i + m] == b[j..j + m]
    ensures EntryLength(a, i) == EntryLength(b, j) && KeyLength(a, i) == KeyLength(b, j)
    ensures IsEnd(a, i) == IsEnd(b, j)
    ensures 16 + KeyLength(a, i) <= m ==> EntryAt(a, i) == EntryAt(b, j)
  {
    hide Value, ParseName;
    SubSame(a, i, b, j, m, 0, 8);
    SubSame(a, i, b, j, m, 8, 10);
    SubSame(a, i, b, j, m, 10, 12);
    SubSame(a, i, b, j, m, 12, 14);
    if 16 + KeyLength(a, i) <= m {
      SubSame(a, i, b, j, m, 16, 16 + KeyLength(a, i));
    }
  }

  /** Walking the spliced buffer gives the old entries, then the new one, then stops at the moved end
      entry. */
  lemma {:induction false} WalkInserted(data: seq<Byte>, data': seq<Byte>, e: seq<Byte>, off: nat, end: nat)
    requires GoodEntries(data, off, end) && GoodEntry(e) && |data'| == |data| && end + |e| <= |data|
    requires data'[off..end - 16] == data[off..end - 16]
    requires data'[end - 16..end - 16 + |e|] == e
    requires data'[end - 16 + |e|..end + |e|] == data[end - 16..end]
    ensures GoodEntries(data', off, end + |e|)
    ensures Walk(data', off, end + |e|) == Walk(data, off, end) + EntryAt(e, 0)
    decreases end - off
  {
    hide EntryAt, IsEnd, EntryLength, KeyLength;
    if off + 16 == end {
      NewEntryWalk(data, data', e, off);
      assert [] + EntryAt(e, 0) == EntryAt(e, 0);
    } else {
      var len := EntryLength(data, off);
      var rest := end - 16 - off;
      SubSame(data', off, data, off, rest, 0, len);
      SubSame(data', off, data, off, rest, len, rest);
      SameEntry(data', off, data, off, len);
      WalkInserted(data, data', e, off + len, end);
    }
  }

  lemma {:induction false} NewEntryWalk(data: seq<Byte>, data': seq<Byte>, e: seq<Byte>, off: nat)
    requires |e| >= 16
    requires off + 16 <= |data| && IsEnd(data, off) && GoodEntry(e)
    requires |data'| == |data| && off + 16 + |e| <= |data|
    requires data'[off..off + |e|] == e && data'[off + |e|..off + |e| + 16] == data[off..off + 16]
    ensures GoodEntries(data', off, off + 16 + |e|)
    ensures Walk(data', off, off + 16 + |e|) == EntryAt(e, 0)
    ensures Walk(data, off, off + 16) == []
  {
    hide EntryAt, IsEnd, EntryLength, KeyLength, Walk, GoodEntries, GoodEntry;
    PlacedEntry(data', off, e);
    EndMoved(data, data', off, off + |e|);
    StopsHere(data, off);
    OneThenEnd(data', off, |e|);
  }

  lemma EndMoved(data: seq<Byte>, data': seq<Byte>, off: nat, to: nat)
    requires off + 16 <= |data| && to + 16 <= |data'| && IsEnd(data, off)
    requires data'[to..to + 16] == data[off..off + 16]
    ensures IsEnd(data', to)
  {
    hide IsEnd, EntryLength, KeyLength, EntryAt;
    SameEntry(data', to, data, off, 16);
  }

  lemma PlacedEntry(data: seq<Byte>, off: nat, e: seq<Byte>)
    requires GoodEntry(e) && off + |e| <= |data| && data[off..off + |e|] == e
    ensures off + 16 <= |data| && |e| >= 16
    ensures !IsEnd(data, off) && EntryLength(data, off) == |e| >= 16 + KeyLength(data, off)
    ensures EntryAt(data, off) == EntryAt(e, 0)
  {
    hide EntryAt, IsEnd, EntryLength, KeyLength;
    assert e[0..|e|] == e;
    SameEntry(data, off, e, 0, |e|);
  }

  lemma OneThenEnd(data: seq<Byte>, off: nat, len: nat)
    requires off + len + 16 <= |data| && len >= 16
    requires !IsEnd(data, off) && EntryLength(data, off) == len >= 16 + KeyLength(data, off)
    requires IsEnd(data, off + len)
    ensures GoodEntries(data, off, off + len + 16) && Walk(data, off, off + len + 16) == EntryAt(data, off)
  {
  }

  lemma {:induction false} StopsHere(data: seq<Byte>, off: nat)
    requires off + 16 <= |data| && IsEnd(data, off)
    ensures GoodEntries(data, off, off + 16) && Walk(data, off, off + 16) == []
  {
  }

  /** Where the bytes of the spliced buffer come from. */
  lemma InsertedParts(data: seq<Byte>, e: seq<Byte>)
    requires |data| >= 32 && TotalSize(data) + |e| + 16 <= |data|
    requires TotalSize(data) >= 32
    ensures var (d, end) := (Inserted(data, e), 16 + TotalSize(data));
      && d[16..20] == data[16..20] && d[20..24] == LE(4, TotalSize(data) + |e|) && d[24..28] == data[24..28]
      && d[0..16] == data[0..16]
      && d[32..end - 16] == data[32..end - 16]
      && d[end - 16..end - 16 + |e|] == e && d[end - 16 + |e|..end + |e|] == data[end - 16..end]
      && d[end + |e|..|data|] == data[end + |e|..|data|]
  {
    hide TotalSize, LE, Splice;
    var end := 16 + TotalSize(data);
    var moved, total := data[end - 16..end], LE(4, TotalSize(data) + |e|);
    var d1 := Splice(data, end - 16 + |e|, moved);
    var d2 := Splice(d1, end - 16, e);
    SpliceInside(data, end - 16 + |e|, moved);
    SpliceInside(d1, end - 16, e);
    SpliceInside(d2, 20, total);
    SpliceOutside(d1, end - 16, e, end - 16 + |e|, end + |e|);
    SpliceOutside(d2, 20, total, end - 16, end - 16 + |e|);
    SpliceOutside(d2, 20, total, end - 16 + |e|, end + |e|);
    Untouched(data, e, 0, 16);
    Untouched(data, e, 16, 20);
    Untouched(data, e, 24, 28);
    Untouched(data, e, 32, end - 16);
    Untouched(data, e, end + |e|, |data|);
  }

  lemma Untouched(data: seq<Byte>, e: seq<Byte>, lo: nat, hi: nat)
    requires |data| >= 32 && TotalSize(data) + |e| + 16 <= |data| && TotalSize(data) >= 32 && lo <= hi <= |data|
    requires hi <= TotalSize(data) || 16 + TotalSize(data) + |e| <= lo
    requires hi <= 20 || 24 <= lo
    ensures Inserted(data, e)[lo..hi] == data[lo..hi]
  {
    hide TotalSize, LE, Splice;
    var end := 16 + TotalSize(data);
    var moved, total := data[end - 16..end], LE(4, TotalSize(data) + |e|);
    var d1 := Splice(data, end - 16 + |e|, moved);
    SpliceOutside(data, end - 16 + |e|, moved, lo, hi);
    SpliceOutside(d1, end - 16, e, lo, hi);
    SpliceOutside(Splice(d1, end - 16, e), 20, total, lo, hi);
  }

  /** Splicing an entry into a well-formed index with room refines list append: the listing grows by
      the new entry at its end, and the index is well-formed again. */
  lemma InsertAppends(data: seq<Byte>, e: seq<Byte>)
    requires GoodIndex(data) && GoodEntry(e) && TotalSize(data) + |e| <= AllocatedSize(data)
    ensures var d := Inserted(data, e);
      && GoodIndex(d)
      && TotalSize(d) == TotalSize(data) + |e| && AllocatedSize(d) == AllocatedSize(data)
      && Entries(d) == Entries(data) + EntryAt(e, 0)
  {
    hide Inserted, GoodEntry, EntryAt, Walk, Value, LE;
    var d, first, end := Inserted(data, e), 16 + FirstEntry(data), 16 + TotalSize(data);
    InsertedParts(data, e);
    Widths();
    ValueFits(4, TotalSize(data) + |e|);
    SubSame(d, 32, data, 32, end - 48, first - 32, end - 48);
    WalkInserted(data, d, e, first, end);
  }
}
