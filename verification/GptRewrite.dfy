/** Writing a partition table over another one, interrupted anywhere. */
module GptRewrite {
  import opened BlockStorage
  import opened Bytes
  import opened Crc32
  import opened GptFormat
  import opened GptRead
  import opened GptTheorems
  import opened GptWrite
  import opened Wrappers

  /** A table on the disk, completely written. */
  datatype Written = Written(entries: seq<GptEntry>, guid: Guid)

  ghost predicate Room(d: Disk, past: Written, next: Written) {
    Sound(d) && Fits(d, |past.entries|) && Fits(d, |next.entries|)
  }

  /** The disk after `past` was written and then `k` of the five writes of `next`. */
  ghost function Rewriting(d: Disk, past: Written, next: Written, k: nat): Disk
    requires Room(d, past, next) && k <= 5
  {
    Interrupted(Interrupted(d, past.entries, past.guid, 5), next.entries, next.guid, k)
  }

  /** What the old header finds in the primary array once the new one is written over it. */
  function Mixed(past: seq<GptEntry>, next: seq<GptEntry>): (r: seq<GptEntry>)
    ensures |r| == |past|
  {
    if |next| < |past| then next + past[|next|..] else next[..|past|]
  }

  // ----- Entry arrays in parts

  lemma {:induction false} SerializeSum(a: seq<GptEntry>, b: seq<GptEntry>)
    ensures SerializeEntries(a + b) == SerializeEntries(a) + SerializeEntries(b)
  {
    hide EntryBytes;
    if a == [] {
      assert a + b == b;
    } else {
      assert (a + b)[1..] == a[1..] + b;
      SerializeSum(a[1..], b);
      Assoc(EntryBytes(a[0]), SerializeEntries(a[1..]), SerializeEntries(b));
    }
  }

  lemma {:induction false} SerializeSplit(s: seq<GptEntry>, n: nat)
    requires n <= |s|
    ensures SerializeEntries(s[..n]) == SerializeEntries(s)[..n * 128]
    ensures SerializeEntries(s[n..]) == SerializeEntries(s)[n * 128..]
  {
    hide EntryBytes, SerializeEntries;
    assert s == s[..n] + s[n..];
    SerializeSum(s[..n], s[n..]);
  }

  /** The bytes of the mixed array. */
  lemma {:induction false} MixedBytes(past: seq<GptEntry>, next: seq<GptEntry>)
    ensures var (t, u) := (SerializeEntries(past), SerializeEntries(next));
      SerializeEntries(Mixed(past, next)) == if |u| < |t| then u + t[|u|..] else u[..|t|]
  {
    hide SerializeEntries;
    if |next| < |past| {
      SerializeSum(next, past[|next|..]);
      SerializeSplit(past, |next|);
    } else {
      SerializeSplit(next, |past|);
    }
  }

  // ----- The disk between the two tables

  /** What lies between the primary array and the backup array is written by none of the five. */
  lemma {:induction false} BetweenStays(d: Disk, entries: seq<GptEntry>, g: Guid, k: nat)
    requires Sound(d) && Fits(d, |entries|) && k <= 5
    ensures var y := LayoutOf(d, |entries|);
      && y.arrEnd <= y.back <= |d.bytes|
      && Interrupted(d, entries, g, k).bytes[y.arrEnd..y.back] == d.bytes[y.arrEnd..y.back]
  {
    hide Interrupted, ImageOf, Splice, NthWrite, Disk.At, LayoutOf, EntriesEnd;
    ImageFits(d, entries, g);
    if k > 0 {
      BetweenStays(d, entries, g, k - 1);
      InterruptedStep(d, entries, g, k);
      var y, m := LayoutOf(d, |entries|), ImageOf(d, entries, g);
      var w := NthWrite(y, m, k);
      WriteMissesBetween(y, m, |d.bytes|, k);
      Untouched(Interrupted(d, entries, g, k - 1).bytes, w, y.arrEnd, y.back);
    } else {
      InterruptedNone(d, entries, g);
    }
  }

  lemma InterruptedNone(d: Disk, entries: seq<GptEntry>, g: Guid)
    requires Sound(d) && Fits(d, |entries|)
    ensures Interrupted(d, entries, g, 0) == d
  {
    hide Plan;
  }

  lemma WriteMissesBetween(y: GptTheorems.Layout, m: Image, size: nat, k: nat)
    requires 0 < k <= 5 && Ordered(y, m, size)
    ensures var w := NthWrite(y, m, k); y.back <= w.off || w.off + |w.data| <= y.arrEnd
  {
  }

  /** The first write, of the MBR, leaves everything behind block 0 alone. */
  lemma FirstWriteLeaves(d: Disk, entries: seq<GptEntry>, g: Guid, k: nat)
    requires Sound(d) && Fits(d, |entries|) && k <= 1
    ensures var y := LayoutOf(d, |entries|);
      y.head <= |d.bytes| && Interrupted(d, entries, g, k).bytes[y.head..] == d.bytes[y.head..]
  {
    hide Interrupted, ImageOf, Splice, Disk.At, LayoutOf, EntriesEnd;
    ImageFits(d, entries, g);
    InterruptedNone(d, entries, g);
    if k == 1 {
      InterruptedStep(d, entries, g, 1);
      var y := LayoutOf(d, |entries|);
      var b, w := Interrupted(d, entries, g, 0).bytes, NthWrite(y, ImageOf(d, entries, g), 1);
      Untouched(b, w, y.head, |b|);
      assert b[y.head..|b|] == b[y.head..];
      assert Splice(b, w.off, w.data)[y.head..|b|] == Splice(b, w.off, w.data)[y.head..];
    }
  }

  lemma SameGeometry(d: Disk, e: Disk, n: nat)
    requires e == d.(bytes := e.bytes) && |e.bytes| == |d.bytes| && Sound(d) && Fits(d, n)
    ensures Sound(e) && Fits(e, n) && LayoutOf(e, n) == LayoutOf(d, n)
  {
  }

  lemma SamePlaces(d: Disk, e: Disk, n: nat)
    requires e == d.(bytes := e.bytes)
    ensures PrimaryReadable(e, n) == PrimaryReadable(d, n)
    ensures forall lba: nat :: e.At(lba) == d.At(lba)
  {
  }

  /** Both layouts differ only in how long the two arrays are. */
  lemma SameAreas(d: Disk, n: nat, m: nat)
    requires Sound(d) && Fits(d, n) && Fits(d, m)
    ensures var (y, z) := (LayoutOf(d, n), LayoutOf(d, m));
      && z.head == y.head && z.arr == y.arr && z.back == y.back && z.last == y.last && z.end == y.end
      && y.arrEnd == y.arr + n * 128 && z.arrEnd == z.arr + m * 128
  {
  }

  /** The primary areas while at most the MBR is rewritten. */
  lemma OldAreasBefore(d: Disk, past: Written, next: Written, k: nat)
    requires Room(d, past, next) && k < 2
    ensures var y, m := LayoutOf(d, |past.entries|), ImageOf(d, past.entries, past.guid);
      var b := Rewriting(d, past, next, k).bytes;
      && Ordered(y, m, |b|) && b[y.head..y.arr] == m.primary
      && b[y.arr..y.arrEnd] == SerializeEntries(past.entries)
  {
    hide Interrupted, ImageOf, Disk.At, LayoutOf, EntriesEnd, SerializeEntries, Holds, Mixed;
    var was := Interrupted(d, past.entries, past.guid, 5);
    var y, m := LayoutOf(d, |past.entries|), ImageOf(d, past.entries, past.guid);
    Areas(d, past.entries, past.guid, 5);
    HoldsOld(d.bytes, was.bytes, y, m);
    SameGeometry(d, was, |past.entries|);
    SameGeometry(d, was, |next.entries|);
    SameAreas(d, |past.entries|, |next.entries|);
    TableOf(d, past.entries, past.guid);
    var e := Rewriting(d, past, next, k);
    FirstWriteLeaves(was, next.entries, next.guid, k);
    SameTail(e.bytes, was.bytes, y.head, y.head, y.arr);
    SameTail(e.bytes, was.bytes, y.head, y.arr, y.arrEnd);
  }

  /** What the primary areas hold, seen with the old table's layout, while the old header is still in place. */
  lemma OldAreas(d: Disk, past: Written, next: Written, k: nat)
    requires Room(d, past, next) && k < 4
    ensures var (y, m) := (LayoutOf(d, |past.entries|), ImageOf(d, past.entries, past.guid));
      var b := Rewriting(d, past, next, k).bytes;
      && Ordered(y, m, |b|) && b[y.head..y.arr] == m.primary
      && b[y.arr..y.arrEnd] == SerializeEntries(if k < 2 then past.entries else Mixed(past.entries, next.entries))
  {
    hide Interrupted, ImageOf, Disk.At, LayoutOf, EntriesEnd, SerializeEntries, Holds, Mixed;
    var was := Interrupted(d, past.entries, past.guid, 5);
    var y, z := LayoutOf(d, |past.entries|), LayoutOf(d, |next.entries|);
    var m := ImageOf(d, past.entries, past.guid);
    Areas(d, past.entries, past.guid, 5);
    HoldsOld(d.bytes, was.bytes, y, m);
    SameGeometry(d, was, |past.entries|);
    SameGeometry(d, was, |next.entries|);
    SameAreas(d, |past.entries|, |next.entries|);
    TableOf(d, past.entries, past.guid);
    var e := Rewriting(d, past, next, k);
    if k < 2 {
      OldAreasBefore(d, past, next, k);
    } else {
      Areas(was, next.entries, next.guid, k);
      TableOf(was, next.entries, next.guid);
      HoldsNew(was.bytes, e.bytes, z, ImageOf(was, next.entries, next.guid), k);
      BetweenStays(was, next.entries, next.guid, k);
      MixedBytes(past.entries, next.entries);
      ArrayMixed(e.bytes, was.bytes, y.arr, y.arrEnd, z.arrEnd, y.back);
    }
  }

  lemma {:induction false} TableOf(d: Disk, entries: seq<GptEntry>, g: Guid)
    requires Fits(d, |entries|)
    ensures ImageOf(d, entries, g).table == SerializeEntries(entries)
  {
    hide SerializeEntries, HeaderBlock, PrimaryHeader, BackupHeader, MbrBytes;
  }

  lemma HoldsOld(was: seq<Byte>, b: seq<Byte>, y: GptTheorems.Layout, m: Image)
    requires |b| == |was| && Ordered(y, m, |b|) && Holds(was, b, y, m, 5)
    ensures b[y.head..y.arr] == m.primary && b[y.arr..y.arrEnd] == m.table
    ensures b[y.last..y.end] == m.backup && b[y.back..y.backEnd] == m.table
  {
  }

  lemma HoldsNew(was: seq<Byte>, b: seq<Byte>, y: GptTheorems.Layout, m: Image, k: nat)
    requires |b| == |was| && Ordered(y, m, |b|) && 2 <= k <= 5 && Holds(was, b, y, m, k)
    ensures b[y.arr..y.arrEnd] == m.table
    ensures b[y.head..y.arr] == if k < 4 then was[y.head..y.arr] else m.primary
  {
  }

  lemma SameTail(b: seq<Byte>, c: seq<Byte>, from: nat, lo: nat, hi: nat)
    requires |b| == |c| && from <= lo <= hi <= |b| && b[from..] == c[from..]
    ensures b[lo..hi] == c[lo..hi]
  {
    SliceOfSlice(b, from, |b|, lo - from, hi - from);
    SliceOfSlice(c, from, |c|, lo - from, hi - from);
    assert b[from..|b|] == b[from..] && c[from..|c|] == c[from..];
  }

  /** An array that was partly overwritten from its start. */
  lemma ArrayMixed(b: seq<Byte>, was: seq<Byte>, arr: nat, end: nat, newEnd: nat, back: nat)
    requires |b| == |was| && arr <= end <= back <= |b| && arr <= newEnd <= back
    requires b[newEnd..back] == was[newEnd..back]
    ensures b[arr..end] == if newEnd < end then b[arr..newEnd] + was[arr..end][newEnd - arr..]
                           else b[arr..newEnd][..end - arr]
  {
    if newEnd < end {
      SubSame(b, newEnd, was, newEnd, back - newEnd, 0, end - newEnd);
      SliceOfSlice(was, arr, end, newEnd - arr, end - arr);
      assert was[arr..end][newEnd - arr..] == was[arr..end][newEnd - arr..end - arr];
    } else {
      SliceOfSlice(b, arr, newEnd, 0, end - arr);
    }
  }

  // ----- What a reader finds

  /** Writing a table over another one, stopped after any number of the five writes: up to the first the old table
      is read, from the fourth on the new one. In between the old header is checked against an array that begins
      with the new entries, and the reader does not turn to the backup: it reports an error unless the checksums
      collide. */
  lemma RewriteCrash(d: Disk, past: Written, next: Written, k: nat)
    requires Room(d, past, next) && k <= 5
    requires PrimaryReadable(d, |past.entries|) && PrimaryReadable(d, |next.entries|)
    ensures GptOf(Rewriting(d, past, next, k)) ==
            if k < 2 then Success((PrimaryHeader(d, past.entries, past.guid), past.entries))
            else if k >= 4 then Success((PrimaryHeader(d, next.entries, next.guid), next.entries))
            else
              var mixed := Mixed(past.entries, next.entries);
              if Crc(SerializeEntries(mixed)) == Crc(SerializeEntries(past.entries))
              then Success((PrimaryHeader(d, past.entries, past.guid), mixed)) else Failure(InvalidEntriesCrc)
  {
    hide Interrupted, SerializeEntries, ParseEntries, Crc, PrimaryHeader, BackupHeader, GptOf, Disk.At, ImageOf,
         LayoutOf, VerifyHeader, Mixed, EntriesEnd;
    var was, e := Interrupted(d, past.entries, past.guid, 5), Rewriting(d, past, next, k);
    SameGeometry(d, was, |next.entries|);
    SamePlaces(d, e, |past.entries|);
    SamePlaces(d, e, |next.entries|);
    if k < 4 {
      var read := if k < 2 then past.entries else Mixed(past.entries, next.entries);
      SceneOf(d, e, past.entries, past.guid);
      OldAreas(d, past, next, k);
      HeadersOf(d, past.entries, past.guid);
      ParseSerialized(read);
      PrimaryDecides(e, LayoutOf(d, |past.entries|), ImageOf(d, past.entries, past.guid),
                     PrimaryHeader(d, past.entries, past.guid), BackupHeader(d, past.entries, past.guid), past.entries,
                     read);
    } else {
      var y, m := LayoutOf(was, |next.entries|), ImageOf(was, next.entries, next.guid);
      SceneOf(was, e, next.entries, next.guid);
      Areas(was, next.entries, next.guid, k);
      HoldsNew(was.bytes, e.bytes, y, m, k);
      SameHeader(d, was, next);
      PrimaryDecides(e, y, m, PrimaryHeader(was, next.entries, next.guid), BackupHeader(was, next.entries, next.guid),
                     next.entries, next.entries);
    }
  }

  lemma SameHeader(d: Disk, e: Disk, t: Written)
    requires e == d.(bytes := e.bytes) && Fits(d, |t.entries|) && Fits(e, |t.entries|)
    ensures PrimaryHeader(e, t.entries, t.guid) == PrimaryHeader(d, t.entries, t.guid)
  {
    hide Sealed, Crc, SerializeEntries;
  }

  /** After the second write the whole backup of the old table is still there: read through it, the disk would give
      the old table. */
  lemma BackupIsIntact(d: Disk, past: Written, next: Written)
    requires Room(d, past, next)
    requires d.readable(d.At(d.blockCount - 1), d.blockSize)
    requires d.readable(d.At(d.blockCount - 33), |past.entries| * 128)
    ensures var (e, h) := (Rewriting(d, past, next, 2), BackupHeader(d, past.entries, past.guid));
      && HeaderAt(e, d.blockCount - 1) == Success(h) && EntriesOf(e, h) == Success(past.entries)
      && Crc(SerializeEntries(past.entries)) == h.arrayCrc
  {
    hide Interrupted, SerializeEntries, ParseEntries, Crc, PrimaryHeader, BackupHeader, Disk.At, ImageOf, LayoutOf,
         VerifyHeader, EntriesEnd, HeaderAt, EntriesOf, Holds;
    var was, e := Interrupted(d, past.entries, past.guid, 5), Rewriting(d, past, next, 2);
    var y, m := LayoutOf(d, |past.entries|), ImageOf(d, past.entries, past.guid);
    var bh := BackupHeader(d, past.entries, past.guid);
    SceneOf(d, e, past.entries, past.guid);
    Areas(d, past.entries, past.guid, 5);
    HoldsOld(d.bytes, was.bytes, y, m);
    SameGeometry(d, was, |next.entries|);
    SameAreas(d, |past.entries|, |next.entries|);
    SamePlaces(d, e, |past.entries|);
    BackupStays(was, next.entries, next.guid);
    SameTail(e.bytes, was.bytes, y.back, y.back, y.backEnd);
    SameTail(e.bytes, was.bytes, y.back, y.last, y.end);
    HeaderReadBack(e, d.blockCount - 1, m.backup, bh);
    TableReadBack(e, bh, past.entries, y.back);
  }

  /** The first two writes leave everything from the backup array on alone. */
  lemma BackupStays(d: Disk, entries: seq<GptEntry>, g: Guid)
    requires Sound(d) && Fits(d, |entries|)
    ensures var y := LayoutOf(d, |entries|);
      y.back <= |d.bytes| && Interrupted(d, entries, g, 2).bytes[y.back..] == d.bytes[y.back..]
  {
    hide Interrupted, ImageOf, Splice, Disk.At, LayoutOf, EntriesEnd;
    ImageFits(d, entries, g);
    InterruptedNone(d, entries, g);
    var y, m, size := LayoutOf(d, |entries|), ImageOf(d, entries, g), |d.bytes|;
    InterruptedStep(d, entries, g, 1);
    InterruptedStep(d, entries, g, 2);
    var one, two := Interrupted(d, entries, g, 1).bytes, Interrupted(d, entries, g, 2).bytes;
    Untouched(d.bytes, NthWrite(y, m, 1), y.back, size);
    Untouched(one, NthWrite(y, m, 2), y.back, size);
    assert d.bytes[y.back..] == d.bytes[y.back..size] && two[y.back..] == two[y.back..size];
  }

  /** The serialised entries differ in exactly one byte. */
  ghost predicate OneByteApart(a: seq<Byte>, b: seq<Byte>) {
    exists i :: 0 <= i < |a| && ChangedAt(a, b, i)
  }

  ghost predicate ChangedAt(a: seq<Byte>, b: seq<Byte>, i: nat)
    requires i < |a|
  {
    |b| == |a| && b[i] != a[i] && b == a[i := b[i]]
  }

  /** Rewriting a table with one byte of its entries changed: between the second and the fourth write the disk
      reads as neither table. */
  lemma OneByteRewrite(d: Disk, past: Written, next: Written, k: nat)
    requires Room(d, past, next) && 2 <= k < 4
    requires PrimaryReadable(d, |past.entries|) && PrimaryReadable(d, |next.entries|)
    requires OneByteApart(SerializeEntries(past.entries), SerializeEntries(next.entries))
    ensures GptOf(Rewriting(d, past, next, k)) == Failure(InvalidEntriesCrc)
  {
    hide SerializeEntries, Crc, Mixed, GptOf, Rewriting, PrimaryHeader, Room, PrimaryReadable;
    RewriteCrash(d, past, next, k);
    MixedBytes(past.entries, next.entries);
    var t, u := SerializeEntries(past.entries), SerializeEntries(next.entries);
    var i :| 0 <= i < |t| && ChangedAt(t, u, i);
    assert u[..|t|] == u;
    OneByteDetected(t, i, u[i]);
  }
}
