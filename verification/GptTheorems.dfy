/** What a partition table on disk survives: interrupted writing and a corrupted byte. */
module GptTheorems {
  import opened Wrappers
  import opened Text
  import opened Bytes
  import opened BlockStorage
  import opened Crc32
  import opened GptFormat
  import opened GptRead
  import opened GptWrite

  /** A device whose blocks cover it exactly. */
  ghost predicate Sound(d: Disk) {
    && 512 <= d.blockSize <= 4096
    && |d.bytes| == d.At(d.blockCount)
    && |d.bytes| < LIMIT
  }

  /** The blocks a table occupies, besides the MBR. */
  datatype Layout = Layout(head: nat, arr: nat, arrEnd: nat, back: nat, backEnd: nat, last: nat, end: nat)

  ghost function LayoutOf(d: Disk, n: nat): Layout
    requires Fits(d, n)
  {
    var l := d.blockCount - 1;
    Layout(d.At(1), d.At(2), d.At(2) + n * 128, d.At(l - 32), d.At(l - 32) + n * 128, d.At(l), d.At(l + 1))
  }

  /** The five areas follow each other without overlap. */
  lemma LayoutOrdered(d: Disk, n: nat)
    requires Sound(d) && Fits(d, n)
    ensures var y := LayoutOf(d, n);
            d.blockSize == y.head && y.head + d.blockSize == y.arr && y.arrEnd <= y.back && y.backEnd <= y.last
            && y.last + d.blockSize == y.end == |d.bytes|
  {
    hide Disk.At;
    var l := d.blockCount - 1;
    var q := EntriesEnd(d.blockSize, n) - 2;
    EntriesWithin(d, n);
    AtSmall(d);
    AtSum(d, 2, q);
    AtMonotone(d, 2 + q, l - 32);
    AtSum(d, l - 32, 32);
    AtSum(d, l, 1);
  }

  /** The entry array lies in the blocks counted for it. */
  lemma EntriesWithin(d: Disk, n: nat)
    requires d.blockSize > 0
    ensures n * 128 <= d.At(EntriesEnd(d.blockSize, n) - 2)
  {
  }

  lemma AtSmall(d: Disk)
    ensures d.At(1) == d.blockSize && d.At(2) == 2 * d.blockSize && d.At(32) == 32 * d.blockSize
  {
  }

  lemma AtSum(d: Disk, i: nat, j: nat)
    ensures d.At(i + j) == d.At(i) + d.At(j)
  {
  }

  lemma AtMonotone(d: Disk, i: nat, j: nat)
    requires i <= j
    ensures d.At(i) <= d.At(j)
  {
  }

  /** The disk after the first `k` writes of a plan reached the medium. */
  ghost function After(d: Disk, ws: seq<DiskWrite>, k: nat): Disk
    requires k <= |ws|
    requires forall w :: w in ws ==> w.off + |w.data| <= |d.bytes|
    ensures |After(d, ws, k).bytes| == |d.bytes|
  {
    if k == 0 then d else After(d, ws, k - 1).Put(ws[k - 1].off, ws[k - 1].data)
  }

  lemma PlanInRange(d: Disk, entries: seq<GptEntry>, g: Guid)
    requires Sound(d) && Fits(d, |entries|)
    ensures forall w :: w in Plan(d, entries, g) ==> w.off + |w.data| <= |d.bytes|
  {
    LayoutOrdered(d, |entries|);
  }

  /** The disk after `k` of the five writes of a table. */
  ghost function Interrupted(d: Disk, entries: seq<GptEntry>, g: Guid, k: nat): (r: Disk)
    requires Sound(d) && Fits(d, |entries|) && k <= 5
    ensures r == d.(bytes := r.bytes) && |r.bytes| == |d.bytes|
  {
    PlanInRange(d, entries, g);
    var ws := Plan(d, entries, g);
    var r := After(d, ws, k);
    AfterKeeps(d, ws, k);
    r
  }

  lemma {:induction false} AfterKeeps(d: Disk, ws: seq<DiskWrite>, k: nat)
    requires k <= |ws|
    requires forall w :: w in ws ==> w.off + |w.data| <= |d.bytes|
    ensures After(d, ws, k) == d.(bytes := After(d, ws, k).bytes)
  {
    if k > 0 {
      AfterKeeps(d, ws, k - 1);
    }
  }

  /** Writing, whether it succeeds or returns early, leaves the disk after some number of whole
      writes: all five exactly on success. */
  lemma {:induction false} PerformIsPrefix(d0: Disk, ws: seq<DiskWrite>, i: nat) returns (k: nat)
    requires i <= |ws|
    requires forall w :: w in ws ==> w.off + |w.data| <= |d0.bytes|
    ensures i <= k <= |ws|
    ensures var (r, d) := Perform(After(d0, ws, i), ws[i..]);
            d == After(d0, ws, k) && (r.Success? <==> k == |ws|)
    decreases |ws| - i
  {
    k := i;
    hide Splice;
    var d := After(d0, ws, i);
    if i < |ws| && d.CanWrite(ws[i].off, |ws[i].data|) {
      assert ws[i..][1..] == ws[i + 1..];
      k := PerformIsPrefix(d0, ws, i + 1);
    }
  }

  lemma OutcomeIsPrefix(d: Disk, entries: seq<GptEntry>, g: Guid) returns (k: nat)
    requires Sound(d) && Fits(d, |entries|)
    ensures k <= 5
    ensures WriteOutcome(d, entries, g).1 == Interrupted(d, entries, g, k)
    ensures WriteOutcome(d, entries, g).0.Success? <==> k == 5
  {
    PlanInRange(d, entries, g);
    var ws := Plan(d, entries, g);
    assert ws[0..] == ws;
    k := PerformIsPrefix(d, ws, 0);
  }

  /** What the five writes put where. */
  datatype Image = Image(mbr: seq<Byte>, table: seq<Byte>, primary: seq<Byte>, backup: seq<Byte>)

  ghost function ImageOf(d: Disk, entries: seq<GptEntry>, g: Guid): Image
    requires Fits(d, |entries|)
  {
    Image(MbrBytes(d.blockSize, d.blockCount - 1), SerializeEntries(entries),
          HeaderBlock(PrimaryHeader(d, entries, g), d.blockSize),
          HeaderBlock(BackupHeader(d, entries, g), d.blockSize))
  }

  ghost predicate Ordered(y: Layout, m: Image, size: nat) {
    && |m.mbr| == y.head
    && y.head + |m.primary| == y.arr
    && y.arr + |m.table| == y.arrEnd <= y.back
    && y.back + |m.table| == y.backEnd <= y.last
    && y.last + |m.backup| == y.end == size
  }

  /** What the five areas hold after `k` writes over `was`, and that the rest of the disk is as it was. */
  ghost predicate Holds(was: seq<Byte>, b: seq<Byte>, y: Layout, m: Image, k: nat)
    requires Ordered(y, m, |b|) && |b| == |was|
  {
    && b[y.arrEnd..y.back] == was[y.arrEnd..y.back] && b[y.backEnd..y.last] == was[y.backEnd..y.last]
    && (k >= 1 ==> b[0..y.head] == m.mbr)
    && b[y.head..y.arr] == (if k < 4 then was[y.head..y.arr] else m.primary)
    && b[y.last..y.end] == (if k < 5 then was[y.last..y.end] else m.backup)
    && (k >= 2 ==> b[y.arr..y.arrEnd] == m.table)
    && (k >= 3 ==> b[y.back..y.backEnd] == m.table)
  }

  ghost function NthWrite(y: Layout, m: Image, k: nat): DiskWrite
    requires 0 < k <= 5
  {
    if k == 1 then DiskWrite(0, m.mbr)
    else if k == 2 then DiskWrite(y.arr, m.table)
    else if k == 3 then DiskWrite(y.back, m.table)
    else if k == 4 then DiskWrite(y.head, m.primary)
    else DiskWrite(y.last, m.backup)
  }

  lemma AreasStep(was: seq<Byte>, b: seq<Byte>, y: Layout, m: Image, k: nat)
    requires 0 < k <= 5 && |b| == |was|
    requires Ordered(y, m, |b|) && Holds(was, b, y, m, k - 1)
    ensures var w := NthWrite(y, m, k);
            w.off + |w.data| <= |b| && Holds(was, Splice(b, w.off, w.data), y, m, k)
  {
    var w := NthWrite(y, m, k);
    SpliceInside(b, w.off, w.data);
    Untouched(b, w, y.head, y.arr);
    Untouched(b, w, y.last, y.end);
    Untouched(b, w, y.arr, y.arrEnd);
    Untouched(b, w, y.back, y.backEnd);
    Untouched(b, w, 0, y.head);
    Untouched(b, w, y.arrEnd, y.back);
    Untouched(b, w, y.backEnd, y.last);
  }

  lemma ImageFits(d: Disk, entries: seq<GptEntry>, g: Guid)
    requires Sound(d) && Fits(d, |entries|)
    ensures Ordered(LayoutOf(d, |entries|), ImageOf(d, entries, g), |d.bytes|)
  {
    LayoutOrdered(d, |entries|);
  }

  lemma InterruptedStep(d: Disk, entries: seq<GptEntry>, g: Guid, k: nat)
    requires Sound(d) && Fits(d, |entries|) && 0 < k <= 5
    ensures var w := NthWrite(LayoutOf(d, |entries|), ImageOf(d, entries, g), k);
            var b := Interrupted(d, entries, g, k - 1).bytes;
            w.off + |w.data| <= |b| && Interrupted(d, entries, g, k).bytes == Splice(b, w.off, w.data)
  {
    hide Disk.At, MbrBytes, HeaderBlock, SerializeEntries, PrimaryHeader, BackupHeader, EntriesEnd, Splice;
    PlanInRange(d, entries, g);
    assert Plan(d, entries, g)[k - 1] == NthWrite(LayoutOf(d, |entries|), ImageOf(d, entries, g), k);
  }

  lemma {:induction false} Areas(d: Disk, entries: seq<GptEntry>, g: Guid, k: nat)
    requires Sound(d) && Fits(d, |entries|) && k <= 5
    ensures Ordered(LayoutOf(d, |entries|), ImageOf(d, entries, g), |d.bytes|)
    ensures Holds(d.bytes, Interrupted(d, entries, g, k).bytes, LayoutOf(d, |entries|), ImageOf(d, entries, g), k)
  {
    hide Interrupted, ImageOf, Splice, NthWrite, Disk.At, LayoutOf, Holds, EntriesEnd;
    ImageFits(d, entries, g);
    if k == 0 {
      AreasBefore(d, entries, g);
    } else {
      Areas(d, entries, g, k - 1);
      InterruptedStep(d, entries, g, k);
      AreasStep(d.bytes, Interrupted(d, entries, g, k - 1).bytes, LayoutOf(d, |entries|), ImageOf(d, entries, g), k);
    }
  }

  lemma AreasBefore(d: Disk, entries: seq<GptEntry>, g: Guid)
    requires Sound(d) && Fits(d, |entries|)
    requires Ordered(LayoutOf(d, |entries|), ImageOf(d, entries, g), |d.bytes|)
    ensures Holds(d.bytes, Interrupted(d, entries, g, 0).bytes, LayoutOf(d, |entries|), ImageOf(d, entries, g), 0)
  {
    hide ImageOf, Disk.At, LayoutOf, EntriesEnd, Plan;
  }

  lemma Untouched(b: seq<Byte>, w: DiskWrite, lo: nat, hi: nat)
    requires w.off + |w.data| <= |b| && lo <= hi <= |b|
    ensures hi <= w.off || w.off + |w.data| <= lo ==> Splice(b, w.off, w.data)[lo..hi] == b[lo..hi]
  {
  }

  // ----- Reading back

  /** A sealed header verifies and is read as it was built. */
  lemma SealedVerifies(h: GptHeader, blockSize: nat)
    requires blockSize >= 512 && h.headerCrc == 0
    requires ValidateHeader(h).Success?
    ensures VerifyHeader(HeaderBlock(Sealed(h), blockSize)) == Success(Sealed(h))
    ensures GPT_SIGNATURE <= HeaderBlock(Sealed(h), blockSize)
  {
    var s := HeaderBlock(Sealed(h), blockSize);
    ParseHeaderBytes(Sealed(h), Zeros(blockSize - GPT_HEADER_SIZE));
    CoveredSealed(h, blockSize);
    assert s[..8] == GPT_SIGNATURE;
  }

  lemma CoveredSealed(h: GptHeader, blockSize: nat)
    requires blockSize >= 512 && h.headerCrc == 0
    ensures Covered(HeaderBlock(Sealed(h), blockSize)) == HeaderBytes(h)
  {
    ZeroBytes(4);
    var c := Sealed(h).headerCrc;
    assert HeaderBlock(Sealed(h), blockSize)[..92] == HeaderBytes(Sealed(h));
    SpliceMiddle(HeaderHead(h), LE(4, c), HeaderTail(h), Zeros(4));
  }

  lemma HeaderReadBack(d: Disk, lba: nat, raw: seq<Byte>, h: GptHeader)
    requires 512 <= d.blockSize <= 4096 && d.At(lba) + d.blockSize <= |d.bytes| < LIMIT
    requires VerifyHeader(raw) == Success(h) && GPT_SIGNATURE <= raw
    requires d.bytes[d.At(lba)..d.At(lba) + d.blockSize] == raw
    ensures HeaderAt(d, lba) == if d.readable(d.At(lba), d.blockSize) then Success(h) else Failure(InvalidSignature)
  {
    hide VerifyHeader;
  }

  lemma NoHeader(d: Disk, lba: nat)
    requires d.At(lba) + d.blockSize <= |d.bytes|
    requires !(GPT_SIGNATURE <= d.bytes[d.At(lba)..d.At(lba) + d.blockSize])
    ensures HeaderAt(d, lba) == Failure(InvalidSignature)
  {
  }

  lemma TableReadBack(d: Disk, h: GptHeader, entries: seq<GptEntry>, at: nat)
    requires |d.bytes| < LIMIT && |entries| <= GPT_MAX_ENTRIES
    requires h.entrySize == GPT_ENTRY_SIZE && h.numEntries == |entries|
    requires at == d.At(h.partitionEntryLba) && at + |entries| * 128 <= |d.bytes|
    requires ParseEntries(d.bytes[at..at + |entries| * 128]) == entries
    ensures EntriesOf(d, h) == ReadOrFail(d, at, entries)
  {
    hide ParseEntries;
  }

  ghost function ReadOrFail(d: Disk, at: nat, entries: seq<GptEntry>): Result<seq<GptEntry>, GptError> {
    if d.readable(at, |entries| * 128) then Success(entries) else Failure(IoError)
  }

  /** What the reader finds at each place it looks, after `k` writes. */
  ghost predicate Finds(e: Disk, y: Layout, ph: GptHeader, bh: GptHeader, entries: seq<GptEntry>, k: nat)
    requires e.blockCount > 0
  {
    && HeaderAt(e, 1) == (if k >= 4 && e.readable(y.head, e.blockSize) then Success(ph) else Failure(InvalidSignature))
    && HeaderAt(e, e.blockCount - 1) ==
       (if k >= 5 && e.readable(y.last, e.blockSize) then Success(bh) else Failure(InvalidSignature))
    && (k >= 2 ==> EntriesOf(e, ph) == ReadOrFail(e, y.arr, entries))
    && (k >= 3 ==> EntriesOf(e, bh) == ReadOrFail(e, y.back, entries))
    && Crc(SerializeEntries(entries)) == ph.arrayCrc == bh.arrayCrc
  }

  /** The image of a table on a disk of matching geometry, and what its parts verify as. */
  ghost predicate Scene(e: Disk, y: Layout, m: Image, ph: GptHeader, bh: GptHeader, entries: seq<GptEntry>) {
    && Sound(e) && e.blockCount > 33 && |entries| <= GPT_MAX_ENTRIES
    && Ordered(y, m, |e.bytes|)
    && |m.table| == |entries| * 128 && |m.primary| == |m.backup| == e.blockSize
    && y.head == e.At(1) && y.arr == e.At(2) && y.last == e.At(e.blockCount - 1) && y.back == e.At(e.blockCount - 33)
    && ph.entrySize == bh.entrySize == GPT_ENTRY_SIZE && ph.numEntries == bh.numEntries == |entries|
    && ph.partitionEntryLba == 2 && bh.partitionEntryLba == e.blockCount - 33
    && VerifyHeader(m.primary) == Success(ph) && GPT_SIGNATURE <= m.primary
    && VerifyHeader(m.backup) == Success(bh) && GPT_SIGNATURE <= m.backup
    && ParseEntries(m.table) == entries
    && Crc(SerializeEntries(entries)) == ph.arrayCrc == bh.arrayCrc
  }

  lemma {:induction false} HeadersOf(d: Disk, entries: seq<GptEntry>, g: Guid)
    requires Sound(d) && Fits(d, |entries|)
    ensures var (ph, bh) := (PrimaryHeader(d, entries, g), BackupHeader(d, entries, g));
      && ph.entrySize == bh.entrySize == GPT_ENTRY_SIZE && ph.numEntries == bh.numEntries == |entries|
      && ph.partitionEntryLba == 2 && bh.partitionEntryLba == d.blockCount - 33
      && ph.arrayCrc == bh.arrayCrc == Crc(SerializeEntries(entries))
      && ph == Sealed(ph.(headerCrc := 0)) && bh == Sealed(bh.(headerCrc := 0))
      && ValidateHeader(ph).Success? && ValidateHeader(bh).Success?
  {
    hide Crc, SerializeEntries, HeaderBytes, Disk.At;
  }

  lemma SceneOf(d: Disk, e: Disk, entries: seq<GptEntry>, g: Guid)
    requires Sound(d) && Fits(d, |entries|) && |e.bytes| == |d.bytes| && e == d.(bytes := e.bytes)
    ensures Scene(e, LayoutOf(d, |entries|), ImageOf(d, entries, g), PrimaryHeader(d, entries, g),
                  BackupHeader(d, entries, g), entries)
  {
    hide VerifyHeader, HeaderBlock, ParseEntries, SerializeEntries, Crc, Ordered, EntriesEnd, PrimaryHeader,
         BackupHeader, Sealed;
    ImageFits(d, entries, g);
    ParseSerialized(entries);
    HeadersOf(d, entries, g);
    SealedVerifies(PrimaryHeader(d, entries, g).(headerCrc := 0), d.blockSize);
    SealedVerifies(BackupHeader(d, entries, g).(headerCrc := 0), d.blockSize);
  }

  lemma FindsHeaders(was: seq<Byte>, e: Disk, y: Layout, m: Image, ph: GptHeader, bh: GptHeader,
                     entries: seq<GptEntry>, k: nat)
    requires Scene(e, y, m, ph, bh, entries) && |was| == |e.bytes| && Holds(was, e.bytes, y, m, k)
    requires !(GPT_SIGNATURE <= was[y.head..y.arr]) && !(GPT_SIGNATURE <= was[y.last..y.end])
    ensures HeaderAt(e, 1) ==
            if k >= 4 && e.readable(y.head, e.blockSize) then Success(ph) else Failure(InvalidSignature)
    ensures HeaderAt(e, e.blockCount - 1) ==
            if k >= 5 && e.readable(y.last, e.blockSize) then Success(bh) else Failure(InvalidSignature)
  {
    hide VerifyHeader, HeaderAt, ParseEntries, SerializeEntries, Crc;
    if k >= 4 {
      HeaderReadBack(e, 1, m.primary, ph);
    } else {
      NoHeader(e, 1);
    }
    if k >= 5 {
      HeaderReadBack(e, e.blockCount - 1, m.backup, bh);
    } else {
      NoHeader(e, e.blockCount - 1);
    }
  }

  lemma FindsTables(was: seq<Byte>, e: Disk, y: Layout, m: Image, ph: GptHeader, bh: GptHeader,
                    entries: seq<GptEntry>, k: nat)
    requires Scene(e, y, m, ph, bh, entries) && |was| == |e.bytes| && Holds(was, e.bytes, y, m, k)
    ensures k >= 2 ==> EntriesOf(e, ph) == ReadOrFail(e, y.arr, entries)
    ensures k >= 3 ==> EntriesOf(e, bh) == ReadOrFail(e, y.back, entries)
  {
    hide VerifyHeader, EntriesOf, ParseEntries, SerializeEntries, Crc;
    if k >= 2 {
      TableReadBack(e, ph, entries, y.arr);
    }
    if k >= 3 {
      TableReadBack(e, bh, entries, y.back);
    }
  }

  lemma FindsWritten(d: Disk, entries: seq<GptEntry>, g: Guid, k: nat)
    requires Sound(d) && Fits(d, |entries|) && k <= 5 && Unsigned(d)
    ensures Finds(Interrupted(d, entries, g, k), LayoutOf(d, |entries|), PrimaryHeader(d, entries, g),
                  BackupHeader(d, entries, g), entries, k)
  {
    Areas(d, entries, g, k);
    var e, y, m := Interrupted(d, entries, g, k), LayoutOf(d, |entries|), ImageOf(d, entries, g);
    var ph, bh := PrimaryHeader(d, entries, g), BackupHeader(d, entries, g);
    SceneOf(d, e, entries, g);
    assert !(GPT_SIGNATURE <= d.bytes[y.head..y.arr]) && !(GPT_SIGNATURE <= d.bytes[y.last..y.end]);
    assert Crc(SerializeEntries(entries)) == ph.arrayCrc == bh.arrayCrc;
    hide Scene, PrimaryHeader, BackupHeader, ImageOf, HeaderAt, EntriesOf, Crc, SerializeEntries, Interrupted;
    FindsHeaders(d.bytes, e, y, m, ph, bh, entries, k);
    FindsTables(d.bytes, e, y, m, ph, bh, entries, k);
  }

  // ----- Interrupted writing

  /** No header signature at the two places a reader looks. */
  ghost predicate Unsigned(d: Disk)
    requires Sound(d) && d.blockCount >= 2
  {
    AtMonotone(d, 1, 2);
    AtMonotone(d, 2, d.blockCount);
    AtMonotone(d, d.blockCount - 1, d.blockCount);
    && !(GPT_SIGNATURE <= d.bytes[d.At(1)..d.At(2)])
    && !(GPT_SIGNATURE <= d.bytes[d.At(d.blockCount - 1)..d.At(d.blockCount)])
  }

  ghost predicate PrimaryReadable(d: Disk, n: nat) {
    d.readable(d.At(1), d.blockSize) && d.readable(d.At(2), n * 128)
  }

  /** After any number of the five writes to a disk without a table, and whichever areas can be
      read, a reader reports an error or exactly the table being written; from the fourth write on
      it reports the table if the primary areas can be read. */
  lemma CrashSafe(d: Disk, entries: seq<GptEntry>, g: Guid, k: nat)
    requires Sound(d) && Fits(d, |entries|) && k <= 5
    requires Unsigned(d)
    ensures var r := GptOf(Interrupted(d, entries, g, k));
            && (r.Success? ==>
                  && k >= 4
                  && r.value.1 == entries
                  && (r.value.0 == PrimaryHeader(d, entries, g) || r.value.0 == BackupHeader(d, entries, g)))
            && (k >= 4 && PrimaryReadable(d, |entries|) ==>
                  r == Success((PrimaryHeader(d, entries, g), entries)))
  {
    FindsWritten(d, entries, g, k);
    hide HeaderAt, EntriesOf, Interrupted, SerializeEntries, PrimaryHeader, BackupHeader, Disk.At;
  }

  // ----- One corrupted byte

  /** A sealed header with one of its 92 covered bytes changed is rejected. */
  lemma CorruptHeaderRejected(h: GptHeader, blockSize: nat, i: nat, v: Byte)
    requires blockSize >= 512 && h.headerCrc == 0 && i < 92
    requires v != HeaderBlock(Sealed(h), blockSize)[i]
    ensures VerifyHeader(HeaderBlock(Sealed(h), blockSize)[i := v]).Failure?
  {
    var raw := HeaderBlock(Sealed(h), blockSize);
    var bad := raw[i := v];
    CoveredSealed(h, blockSize);
    ParseHeaderBytes(Sealed(h), Zeros(blockSize - GPT_HEADER_SIZE));
    if 16 <= i < 20 {
      assert Covered(bad) == Covered(raw);
      assert bad[16..20][i - 16] != raw[16..20][i - 16];
      if Value(bad[16..20]) == Value(raw[16..20]) {
        ValueInjective(bad[16..20], raw[16..20]);
      }
    } else {
      assert Covered(bad) == Covered(raw)[i := v];
      assert bad[16..20] == raw[16..20];
      OneByteDetected(Covered(raw), i, v);
    }
  }

  /** A written table with the byte at `a` overwritten. */
  ghost function Corrupted(d: Disk, entries: seq<GptEntry>, g: Guid, a: nat, v: Byte): Disk
    requires Sound(d) && Fits(d, |entries|) && a < |d.bytes|
  {
    var e := Interrupted(d, entries, g, 5);
    e.(bytes := e.bytes[a := v])
  }

  /** A bad primary header: the backup decides. */
  lemma BackupDecides(e: Disk, y: Layout, m: Image, ph: GptHeader, bh: GptHeader, entries: seq<GptEntry>)
    requires Scene(e, y, m, ph, bh, entries) && (forall off, len :: e.readable(off, len))
    requires VerifyHeader(e.bytes[y.head..y.arr]).Failure?
    requires e.bytes[y.last..y.end] == m.backup && e.bytes[y.back..y.backEnd] == m.table
    ensures GptOf(e) == Success((bh, entries))
  {
    hide VerifyHeader, EntriesOf, ParseEntries, SerializeEntries, Crc;
    HeaderReadBack(e, e.blockCount - 1, m.backup, bh);
    TableReadBack(e, bh, entries, y.back);
  }

  /** The primary header verifies: the outcome is decided by the primary entry array. */
  lemma {:induction false} PrimaryDecides(e: Disk, y: Layout, m: Image, ph: GptHeader, bh: GptHeader,
                                          entries: seq<GptEntry>, read: seq<GptEntry>)
    requires Scene(e, y, m, ph, bh, entries) && PrimaryReadable(e, |entries|)
    requires VerifyHeader(e.bytes[y.head..y.arr]) == Success(ph) && GPT_SIGNATURE <= e.bytes[y.head..y.arr]
    requires ParseEntries(e.bytes[y.arr..y.arrEnd]) == read && |read| == |entries|
    ensures GptOf(e) == if Crc(SerializeEntries(read)) == ph.arrayCrc then Success((ph, read))
                        else Failure(InvalidEntriesCrc)
  {
    hide VerifyHeader, EntriesOf, ParseEntries, SerializeEntries, Crc;
    HeaderReadBack(e, 1, e.bytes[y.head..y.arr], ph);
    TableReadBack(e, ph, read, y.arr);
  }

  /** Bytes after the 92 covered ones do not matter to a header. */
  lemma UncoveredByte(h: GptHeader, blockSize: nat, i: nat, v: Byte)
    requires blockSize >= 512 && h.headerCrc == 0 && ValidateHeader(h).Success?
    requires 92 <= i < blockSize
    ensures var bad := HeaderBlock(Sealed(h), blockSize)[i := v];
            VerifyHeader(bad) == Success(Sealed(h)) && GPT_SIGNATURE <= bad
  {
    hide Crc, Value, HeaderHead, HeaderTail;
    var raw := HeaderBlock(Sealed(h), blockSize);
    var bad := raw[i := v];
    SealedVerifies(h, blockSize);
    assert bad[..92] == raw[..92] == HeaderBytes(Sealed(h));
    assert bad == HeaderBytes(Sealed(h)) + bad[92..];
    ParseHeaderBytes(Sealed(h), bad[92..]);
    ParseHeaderBytes(Sealed(h), Zeros(blockSize - GPT_HEADER_SIZE));
    assert Covered(bad) == Covered(raw);
  }

  /** A changed byte makes a different table, with a different checksum. */
  lemma CorruptTable(entries: seq<GptEntry>, i: nat, v: Byte)
    requires i < |entries| * 128 && v != SerializeEntries(entries)[i]
    ensures Crc(SerializeEntries(ParseEntries(SerializeEntries(entries)[i := v]))) != Crc(SerializeEntries(entries))
  {
    SerializeParsed(SerializeEntries(entries)[i := v]);
    OneByteDetected(SerializeEntries(entries), i, v);
  }

  /** The corrupted disk, area by area. */
  lemma CorruptedAreas(b: seq<Byte>, y: Layout, m: Image, a: nat, v: Byte)
    requires a < |b| && Ordered(y, m, |b|)
    requires b[y.head..y.arr] == m.primary && b[y.last..y.end] == m.backup
    requires b[y.arr..y.arrEnd] == m.table && b[y.back..y.backEnd] == m.table
    ensures b[a := v][y.head..y.arr] == if y.head <= a < y.arr then m.primary[a - y.head := v] else m.primary
    ensures b[a := v][y.arr..y.arrEnd] == if y.arr <= a < y.arrEnd then m.table[a - y.arr := v] else m.table
    ensures y.head <= a < y.arr ==> b[a := v][y.last..y.end] == m.backup && b[a := v][y.back..y.backEnd] == m.table
  {
  }

  /** The disk `e` is the written image `b` with the byte at `a` changed to `v`. */
  ghost predicate OneChanged(e: Disk, b: seq<Byte>, y: Layout, m: Image, h: GptHeader, bh: GptHeader,
                             entries: seq<GptEntry>, a: nat, v: Byte)
  {
    && h.headerCrc == 0 && ValidateHeader(h).Success? && Scene(e, y, m, Sealed(h), bh, entries)
    && (forall off, len :: e.readable(off, len)) && |b| == |e.bytes|
    && a < |b| && v != b[a] && e.bytes == b[a := v]
    && m.primary == HeaderBlock(Sealed(h), e.blockSize) && m.table == SerializeEntries(entries)
    && b[y.head..y.arr] == m.primary && b[y.last..y.end] == m.backup
    && b[y.arr..y.arrEnd] == m.table && b[y.back..y.backEnd] == m.table
  }

  lemma HeaderByteChanged(e: Disk, b: seq<Byte>, y: Layout, m: Image, h: GptHeader, bh: GptHeader,
                          entries: seq<GptEntry>, a: nat, v: Byte)
    requires OneChanged(e, b, y, m, h, bh, entries, a, v) && y.head <= a < y.head + 92
    ensures GptOf(e) == Success((bh, entries))
  {
    hide VerifyHeader, HeaderBlock, SerializeEntries, ParseEntries, Crc, GptOf, Disk.At, Sealed, ValidateHeader;
    CorruptedAreas(b, y, m, a, v);
    assert b[a] == m.primary[a - y.head];
    CorruptHeaderRejected(h, e.blockSize, a - y.head, v);
    BackupDecides(e, y, m, Sealed(h), bh, entries);
  }

  lemma TableByteChanged(e: Disk, b: seq<Byte>, y: Layout, m: Image, h: GptHeader, bh: GptHeader,
                         entries: seq<GptEntry>, a: nat, v: Byte)
    requires OneChanged(e, b, y, m, h, bh, entries, a, v) && y.arr <= a < y.arrEnd
    ensures GptOf(e) == Failure(InvalidEntriesCrc)
  {
    hide VerifyHeader, HeaderBlock, SerializeEntries, ParseEntries, Crc, GptOf, Disk.At, Sealed, ValidateHeader;
    CorruptedAreas(b, y, m, a, v);
    assert b[a] == m.table[a - y.arr];
    CorruptTable(entries, a - y.arr, v);
    PrimaryDecides(e, y, m, Sealed(h), bh, entries, ParseEntries(e.bytes[y.arr..y.arrEnd]));
  }

  lemma OtherByteChanged(e: Disk, b: seq<Byte>, y: Layout, m: Image, h: GptHeader, bh: GptHeader,
                         entries: seq<GptEntry>, a: nat, v: Byte)
    requires OneChanged(e, b, y, m, h, bh, entries, a, v)
    requires !(y.head <= a < y.head + 92) && !(y.arr <= a < y.arrEnd)
    ensures GptOf(e) == Success((Sealed(h), entries))
  {
    hide VerifyHeader, HeaderBlock, SerializeEntries, ParseEntries, Crc, GptOf, Disk.At, Sealed, ValidateHeader;
    CorruptedAreas(b, y, m, a, v);
    if y.head <= a < y.arr {
      UncoveredByte(h, e.blockSize, a - y.head, v);
    }
    PrimaryDecides(e, y, m, Sealed(h), bh, entries, entries);
  }

  lemma CorruptedIsOneChanged(d: Disk, entries: seq<GptEntry>, g: Guid, a: nat, v: Byte)
    requires Sound(d) && Fits(d, |entries|) && a < |d.bytes|
    requires forall off, len :: d.readable(off, len)
    requires v != Interrupted(d, entries, g, 5).bytes[a]
    ensures OneChanged(Corrupted(d, entries, g, a, v), Interrupted(d, entries, g, 5).bytes, LayoutOf(d, |entries|),
                       ImageOf(d, entries, g), PrimaryHeader(d, entries, g).(headerCrc := 0),
                       BackupHeader(d, entries, g), entries, a, v)
  {
    hide Scene, Interrupted, PrimaryHeader, BackupHeader, HeaderBlock, SerializeEntries, Crc, Disk.At, EntriesEnd;
    Areas(d, entries, g, 5);
    SceneOf(d, Corrupted(d, entries, g, a, v), entries, g);
    HeadersOf(d, entries, g);
  }

  /** The whole story of one changed byte anywhere on the disk: it is reported exactly when it lies
      in the primary entry array, and otherwise the table read is the table written - through the
      backup header when the byte is one of the 92 the primary header's checksum covers. */
  lemma OneByteCorruption(d: Disk, entries: seq<GptEntry>, g: Guid, a: nat, v: Byte)
    requires Sound(d) && Fits(d, |entries|) && a < |d.bytes|
    requires forall off, len :: d.readable(off, len)
    requires v != Interrupted(d, entries, g, 5).bytes[a]
    ensures var y := LayoutOf(d, |entries|);
            GptOf(Corrupted(d, entries, g, a, v)) ==
            if y.arr <= a < y.arrEnd then Failure(InvalidEntriesCrc)
            else if y.head <= a < y.head + 92 then Success((BackupHeader(d, entries, g), entries))
            else Success((PrimaryHeader(d, entries, g), entries))
  {
    CorruptedIsOneChanged(d, entries, g, a, v);
    hide GptOf, OneChanged, ImageOf, PrimaryHeader, BackupHeader, Interrupted, Disk.At, EntriesEnd;
    var e, b := Corrupted(d, entries, g, a, v), Interrupted(d, entries, g, 5).bytes;
    var y, m := LayoutOf(d, |entries|), ImageOf(d, entries, g);
    var h, bh := PrimaryHeader(d, entries, g).(headerCrc := 0), BackupHeader(d, entries, g);
    HeadersOf(d, entries, g);
    if y.head <= a < y.head + 92 {
      HeaderByteChanged(e, b, y, m, h, bh, entries, a, v);
    } else if y.arr <= a < y.arrEnd {
      TableByteChanged(e, b, y, m, h, bh, entries, a, v);
    } else {
      OtherByteChanged(e, b, y, m, h, bh, entries, a, v);
    }
  }

  // ----- Complete writing

  /** A completely written table is read back, whatever was on the disk before. */
  lemma WrittenTableRead(d: Disk, entries: seq<GptEntry>, g: Guid)
    requires Sound(d) && Fits(d, |entries|) && PrimaryReadable(d, |entries|)
    ensures GptOf(Interrupted(d, entries, g, 5)) == Success((PrimaryHeader(d, entries, g), entries))
  {
    Areas(d, entries, g, 5);
    var e := Interrupted(d, entries, g, 5);
    SceneOf(d, e, entries, g);
    hide Interrupted, VerifyHeader, HeaderBlock, SerializeEntries, ParseEntries, Crc, PrimaryHeader, BackupHeader,
         GptOf, Disk.At;
    PrimaryDecides(e, LayoutOf(d, |entries|), ImageOf(d, entries, g), PrimaryHeader(d, entries, g),
                   BackupHeader(d, entries, g), entries, entries);
  }

  // ----- The bytes on the disk

  /** The fields of a header, by their bytes: its own block and that of the other header, the block of its entry
      array, the identifier of the disk, and the number and checksum of the entries. */
  ghost predicate HeaderFields(b: seq<Byte>, my: nat, other: nat, entriesAt: nat, disk: Guid, blocks: nat, n: nat,
                               table: seq<Byte>)
  {
    && |b| >= 92 && blocks >= 34
    && b[0..8] == [0x45, 0x46, 0x49, 0x20, 0x50, 0x41, 0x52, 0x54] && b[8..12] == [0, 0, 1, 0]
    && b[12..16] == LE(4, 92) && b[16..20] == LE(4, BitwiseCrc(b[0..16] + Zeros(4) + b[20..92]))
    && b[20..24] == Zeros(4) && b[24..32] == LE(8, my) && b[32..40] == LE(8, other)
    && b[40..48] == LE(8, 34) && b[48..56] == LE(8, blocks - 34) && b[56..72] == disk
    && b[72..80] == LE(8, entriesAt) && b[80..84] == LE(4, n) && b[84..88] == LE(4, 128)
    && b[88..92] == LE(4, BitwiseCrc(table)) && b[92..] == Zeros(|b| - 92)
  }

  /** A boot record whose one partition, of type EE, starts at block 1 and covers the disk, as far as its 32 bits
      reach. */
  ghost predicate ProtectiveMbr(b: seq<Byte>, blocks: nat) {
    && |b| >= 512 && blocks > 0 && b[0..446] == Zeros(446)
    && b[446..458] == [0, 0, 2, 0, 0xEE, 0xFF, 0xFF, 0xFF, 1, 0, 0, 0]
    && b[458..462] == LE(4, if blocks > 0xFFFF_FFFF then 0xFFFF_FFFF else blocks - 1)
    && b[462..510] == Zeros(48) && b[510..512] == [0x55, 0xAA] && b[512..] == Zeros(|b| - 512)
  }

  /** The fields of an entry, by its bytes. */
  ghost predicate EntryFields(b: seq<Byte>, e: GptEntry) {
    && |b| == 128
    && b[0..16] == e.typeGuid && b[16..32] == e.uniqueGuid && b[32..40] == LE(8, e.startLba)
    && b[40..48] == LE(8, e.endLba) && b[48..56] == LE(8, e.attributes)
    && forall j | 0 <= j < 36 :: b[56 + 2 * j..58 + 2 * j] == LE(2, e.name[j])
  }

  /** The entries one after another. */
  ghost predicate TableFields(b: seq<Byte>, entries: seq<GptEntry>) {
    && |b| == 128 * |entries|
    && forall i | 0 <= i < |entries| :: EntryFields(b[128 * i..128 * i + 128], entries[i])
  }

  lemma HeaderParts(h: GptHeader, blockSize: nat)
    requires blockSize >= 92
    ensures var b := HeaderBlock(h, blockSize);
      && b[0..8] == h.signature && b[8..12] == h.revision && b[12..16] == LE(4, h.headerSize)
      && b[16..20] == LE(4, h.headerCrc) && b[20..24] == LE(4, h.reserved) && b[24..32] == LE(8, h.myLba)
      && b[32..40] == LE(8, h.alternateLba) && b[40..48] == LE(8, h.firstUsableLba)
      && b[48..56] == LE(8, h.lastUsableLba) && b[56..72] == h.diskGuid && b[72..80] == LE(8, h.partitionEntryLba)
      && b[80..84] == LE(4, h.numEntries) && b[84..88] == LE(4, h.entrySize) && b[88..92] == LE(4, h.arrayCrc)
      && b[92..] == Zeros(blockSize - 92) && b[0..16] == HeaderHead(h) && b[20..92] == HeaderTail(h)
  {
    hide LE;
  }

  lemma FieldsOfHeader(my: U64, other: U64, entriesAt: U64, g: Guid, blocks: U64, n: U32, table: seq<Byte>,
                       blockSize: nat)
    requires blockSize >= 92 && blocks >= 34
    ensures var h := Unsealed(my, other, entriesAt, Crc(table), blocks - 1, g, n);
      HeaderFields(HeaderBlock(Sealed(h), blockSize), my, other, entriesAt, g, blocks, n, table)
  {
    hide LE, Crc, BitwiseCrc, HeaderBlock, HeaderBytes;
    var h := Unsealed(my, other, entriesAt, Crc(table), blocks - 1, g, n);
    HeaderParts(Sealed(h), blockSize);
    ZeroBytes(4);
    TableIsDivision(HeaderBytes(h));
    TableIsDivision(table);
    assert HeaderHead(Sealed(h)) + Zeros(4) + HeaderTail(Sealed(h)) == HeaderBytes(h) by {
      CoveredBytes(h);
    }
  }

  lemma CoveredBytes(h: GptHeader)
    requires h.headerCrc == 0
    ensures HeaderHead(Sealed(h)) + Zeros(4) + HeaderTail(Sealed(h)) == HeaderBytes(h)
  {
    hide Crc;
    ZeroBytes(4);
  }

  lemma FieldsOfMbr(blockSize: nat, blocks: nat)
    requires blockSize >= 512 && blocks > 0
    ensures ProtectiveMbr(MbrBytes(blockSize, blocks - 1), blocks)
  {
    hide LE;
    var start, size := LE(4, 1), LE(4, Min(blocks - 1, 0xFFFF_FFFF));
    assert start == [1, 0, 0, 0] by {
      LEIs(1);
    }
    var b := MbrBytes(blockSize, blocks - 1);
    var entry := ProtectiveEntry(blocks - 1);
    assert b[446..462] == entry && b[446..458] == entry[0..12] && b[458..462] == entry[12..16];
  }

  lemma {:induction false} FieldsOfTable(entries: seq<GptEntry>)
    ensures TableFields(SerializeEntries(entries), entries)
  {
    hide EntryBytes, EntryFields;
    if entries != [] {
      FieldsOfTable(entries[1..]);
      FieldsOfEntry(entries[0]);
      var b, rest := SerializeEntries(entries), SerializeEntries(entries[1..]);
      forall i | 0 <= i < |entries|
        ensures EntryFields(b[128 * i..128 * i + 128], entries[i])
      {
        if i == 0 {
          assert b[0..128] == EntryBytes(entries[0]);
        } else {
          assert b[128 * i..128 * i + 128] == rest[128 * (i - 1)..128 * (i - 1) + 128];
        }
      }
    }
  }

  lemma FieldsOfEntry(e: GptEntry)
    ensures EntryFields(EntryBytes(e), e)
  {
    hide LE, UnitBytes;
    var b := EntryBytes(e);
    EntryParts(e.typeGuid, e.uniqueGuid, LE(8, e.startLba), LE(8, e.endLba), LE(8, e.attributes), UnitBytes(e.name));
    forall j | 0 <= j < 36 ensures b[56 + 2 * j..58 + 2 * j] == LE(2, e.name[j]) {
      UnitBytesAt(e.name, j);
      assert b[56..128][2 * j..2 * j + 2] == b[56 + 2 * j..58 + 2 * j];
    }
  }

  /** Every byte of the disk after a successful write: the protective boot record, the two entry arrays, the
      primary header in block 1 and the backup header in the last block, each of which names its own block and
      the other's; everything else is as it was. */
  lemma WrittenBytes(d: Disk, entries: seq<GptEntry>, g: Guid, b: seq<Byte>, primary: nat, backup: nat, last: nat,
                     len: nat)
    requires Sound(d) && Fits(d, |entries|)
    requires WriteOutcome(d, entries, g).0.Success? && b == WriteOutcome(d, entries, g).1.bytes
    requires primary == 2 * d.blockSize && len == 128 * |entries|
    requires backup == (d.blockCount - 33) * d.blockSize && last == (d.blockCount - 1) * d.blockSize
    ensures |b| == |d.bytes| == last + d.blockSize && primary + len <= backup && backup + len <= last
    ensures var table, n := b[primary..primary + len], |entries|;
      && ProtectiveMbr(b[0..d.blockSize], d.blockCount)
      && TableFields(table, entries) && b[backup..backup + len] == table
      && HeaderFields(b[d.blockSize..primary], 1, d.blockCount - 1, 2, g, d.blockCount, n, table)
      && HeaderFields(b[last..|b|], d.blockCount - 1, 1, d.blockCount - 33, g, d.blockCount, n, table)
      && b[primary + len..backup] == d.bytes[primary + len..backup]
      && b[backup + len..last] == d.bytes[backup + len..last]
  {
    hide WriteOutcome, Interrupted, SerializeEntries, Crc, HeaderFields, TableFields, ProtectiveMbr, MbrBytes,
         HeaderBlock, Sealed, EntriesEnd;
    var k := OutcomeIsPrefix(d, entries, g);
    LayoutOrdered(d, |entries|);
    Areas(d, entries, g, 5);
    ImageFields(d, entries, g);
  }

  lemma ImageFields(d: Disk, entries: seq<GptEntry>, g: Guid)
    requires Sound(d) && Fits(d, |entries|)
    ensures var m, last, n := ImageOf(d, entries, g), d.blockCount - 1, |entries|;
      && last > 33 && ProtectiveMbr(m.mbr, d.blockCount) && TableFields(m.table, entries)
      && HeaderFields(m.primary, 1, last, 2, g, d.blockCount, n, m.table)
      && HeaderFields(m.backup, last, 1, last - 32, g, d.blockCount, n, m.table)
  {
    hide SerializeEntries, Crc, HeaderFields, TableFields, ProtectiveMbr, MbrBytes, HeaderBlock, Sealed, Unsealed;
    var last, table := d.blockCount - 1, SerializeEntries(entries);
    FieldsOfMbr(d.blockSize, d.blockCount);
    FieldsOfTable(entries);
    FieldsOfHeader(1, last, 2, g, d.blockCount, |entries|, table, d.blockSize);
    FieldsOfHeader(last, 1, last - 32, g, d.blockCount, |entries|, table, d.blockSize);
  }

  // ----- What a reader accepts

  /** The bytes of a header that a reader accepts: signature, its size, the size of an entry, and its checksum. */
  ghost predicate Acceptable(raw: seq<Byte>) {
    && |raw| >= 92 && raw[0..8] == [0x45, 0x46, 0x49, 0x20, 0x50, 0x41, 0x52, 0x54]
    && raw[12..16] == LE(4, 92) && raw[84..88] == LE(4, 128)
    && raw[16..20] == LE(4, BitwiseCrc(raw[0..16] + Zeros(4) + raw[20..92]))
  }

  lemma FieldIs(raw: seq<Byte>, at: nat, v: U32)
    requires at + 4 <= |raw|
    ensures ReadU32(raw, at) == v <==> raw[at..at + 4] == LE(4, v)
  {
    hide LE, Value;
    Widths();
    ValueFits(4, v);
    LEOfValue(raw[at..at + 4]);
  }

  lemma VerifiesIff(raw: seq<Byte>)
    ensures VerifyHeader(raw).Success? <==> Acceptable(raw)
    ensures |raw| >= 92 && VerifyHeader(raw).Success? ==> VerifyHeader(raw).value == ParseHeader(raw)
  {
    hide LE, Value, Crc, BitwiseCrc, ReadU32, ReadU64;
    if |raw| >= 92 {
      var covered := raw[0..16] + Zeros(4) + raw[20..92];
      assert Covered(raw) == covered;
      TableIsDivision(covered);
      FieldIs(raw, 12, 92);
      FieldIs(raw, 84, 128);
      FieldIs(raw, 16, BitwiseCrc(covered));
    }
  }

  /** A header is accepted at a block exactly when the block has at most 4096 bytes, can be read, and holds an
      acceptable header. */
  lemma HeaderAcceptedIff(d: Disk, lba: nat, at: nat)
    requires at == lba * d.blockSize && |d.bytes| < 0x1_0000_0000_0000_0000
    ensures HeaderAt(d, lba).Success? <==>
            && d.blockSize <= 4096 && d.CanRead(at, d.blockSize) && Acceptable(d.bytes[at..at + d.blockSize])
  {
    hide VerifyHeader, Acceptable;
    if d.CanRead(at, d.blockSize) {
      var raw := d.bytes[at..at + d.blockSize];
      VerifiesIff(raw);
      if Acceptable(raw) {
        Signed(raw);
      }
    }
  }

  lemma Signed(raw: seq<Byte>)
    requires Acceptable(raw)
    ensures GPT_SIGNATURE <= raw
  {
    assert raw[0..8] == raw[..8];
  }

  /** Which entries are read for a header: at most 512, from the block it names, which can be read. */
  lemma EntriesReadIff(d: Disk, h: GptHeader, at: nat)
    requires at == h.partitionEntryLba * d.blockSize && |d.bytes| < 0x1_0000_0000_0000_0000 && h.entrySize == 128
    ensures EntriesOf(d, h).Success? <==> h.numEntries <= 512 && d.CanRead(at, 128 * h.numEntries)
    ensures EntriesOf(d, h).Success? ==> TableFields(d.bytes[at..at + 128 * h.numEntries], EntriesOf(d, h).value)
  {
    hide ParseEntries;
    if EntriesOf(d, h).Success? {
      var raw := d.bytes[at..at + 128 * h.numEntries];
      SerializeParsed(raw);
      FieldsOfTable(ParseEntries(raw));
    }
  }

  /** A table fits the disk exactly when it has at most 128 entries, blocks hold an MBR, and 37 blocks are left beside
      the entries. */
  lemma FitsIff(d: Disk, n: nat, room: int)
    requires room == (d.blockCount - 37) * d.blockSize
    ensures Fits(d, n) <==> n <= 128 && d.blockSize >= 512 && 37 <= d.blockCount < 0x1_0000_0000_0000_0000
                            && 128 * n <= room
  {
    if d.blockSize >= 512 {
      var q := (n * 128 + d.blockSize - 1) / d.blockSize;
      var c := d.blockCount - 37;
      if q <= c {
        MulMonotone(q, c, d.blockSize);
      } else if c >= 0 {
        MulMonotone(c + 1, q, d.blockSize);
      }
    }
  }

  /** The writing procedure, whatever write it stops at: success means the table is read back, and
      on a disk without a table nothing but this table can be read afterwards. */
  lemma WriteThenRead(d: Disk, entries: seq<GptEntry>, g: Guid)
    requires Sound(d) && Fits(d, |entries|)
    ensures var (w, e) := WriteOutcome(d, entries, g);
            var r := GptOf(e);
            && (w.Success? && PrimaryReadable(d, |entries|) ==>
                  r == Success((PrimaryHeader(d, entries, g), entries)))
            && (Unsigned(d) && r.Success? ==> r.value.1 == entries)
  {
    var k := OutcomeIsPrefix(d, entries, g);
    hide WriteOutcome, GptOf, Interrupted, PrimaryHeader, Unsigned;
    if k == 5 && PrimaryReadable(d, |entries|) {
      WrittenTableRead(d, entries, g);
    }
    if Unsigned(d) {
      CrashSafe(d, entries, g, k);
    }
  }
}
