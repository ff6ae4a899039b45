/** Update-sequence fixups: on disk the last two bytes of every sector of a record hold a sequence
    number, and the bytes that belong there are kept in an array inside the record. */
module NtfsFixups {
  import opened Wrappers
  import opened Bytes
  import opened NtfsTypes

  function UsaOffset(buf: seq<Byte>): nat
    requires |buf| >= 8
  {
    ReadU16(buf, 4)
  }

  function UsaCount(buf: seq<Byte>): nat
    requires |buf| >= 8
  {
    ReadU16(buf, 6)
  }

  // ----- What the two loops compute; `n` sectors remain, the next one's tail is at `end`

  function RestoreTails(buf: seq<Byte>, sector: nat, mark: seq<Byte>, slot: nat, end: nat, n: nat)
    : (r: Outcome<seq<Byte>>)
    requires slot + 2 * n <= |buf| && |mark| == 2
    ensures r.Success? ==> |r.value| == |buf|
    decreases n
  {
    if n == 0 then Success(buf)
    else if end + 2 > |buf| || buf[end..end + 2] != mark then Failure(CorruptedFilesystem)
    else RestoreTails(Splice(buf, end, buf[slot..slot + 2]), sector, mark, slot + 2, end + sector, n - 1)
  }

  function SaveTails(buf: seq<Byte>, sector: nat, mark: seq<Byte>, slot: nat, end: nat, n: nat): (r: Outcome<seq<Byte>>)
    requires slot + 2 * n <= |buf| && |mark| == 2
    ensures r.Success? ==> |r.value| == |buf|
    decreases n
  {
    if n == 0 then Success(buf)
    else if end + 2 > |buf| then Failure(CorruptedFilesystem)
    else
      var saved := Splice(buf, slot, buf[end..end + 2]);
      SaveTails(Splice(saved, end, mark), sector, mark, slot + 2, end + sector, n - 1)
  }

  /** Undoing the fixups of a record read from disk. */
  function ApplyFixups(buf: seq<Byte>, sector: nat): (r: Outcome<seq<Byte>>)
    ensures r.Success? ==> |r.value| == |buf|
  {
    if |buf| < 8 then Failure(Panicked)
    else
      var uso, usc := UsaOffset(buf), UsaCount(buf);
      if uso < 48 || uso + 2 > |buf| || usc == 0 then Success(buf)
      else if uso + 2 * usc > |buf| then Failure(CorruptedFilesystem)
      else if usc > 1 && sector < 2 then Failure(Panicked)
      else if usc == 1 then Success(buf)
      else RestoreTails(buf, sector, buf[uso..uso + 2], uso + 2, sector - 2, usc - 1)
  }

  /** Redoing the fixups of a record about to be written. */
  function ReapplyFixups(buf: seq<Byte>, sector: nat): (r: Outcome<seq<Byte>>)
    ensures r.Success? ==> |r.value| == |buf|
  {
    if |buf| < 8 then Failure(Panicked)
    else
      var uso, usc := UsaOffset(buf), UsaCount(buf);
      if uso < 48 || usc == 0 then Success(buf)
      else if uso + 2 * usc > |buf| then Failure(CorruptedFilesystem)
      else if usc > 1 && sector < 2 then Failure(Panicked)
      else if usc == 1 then Success(buf)
      else SaveTails(buf, sector, buf[uso..uso + 2], uso + 2, sector - 2, usc - 1)
  }

  // ----- The program's procedures

  /** Where the tail of sector `i` starts, counting sectors from one. */
  function Tail(i: nat, sector: nat): int {
    i * sector - 2
  }

  lemma NextTail(i: nat, sector: nat)
    ensures Tail(i + 1, sector) == Tail(i, sector) + sector
    ensures Tail(1, sector) == sector - 2
    ensures i >= 1 && sector >= 2 ==> Tail(i, sector) >= 0
  {
  }

  method ApplyFixupsInPlace(buf: array<Byte>, sector: nat) returns (r: Outcome<()>)
    modifies buf
    ensures var s := ApplyFixups(old(buf[..]), sector);
            if s.Success? then r == Success(()) && buf[..] == s.value else r == Failure(s.error)
  {
    if buf.Length < 8 {
      return Failure(Panicked);
    }
    var uso, usc := UsaOffset(buf[..]), UsaCount(buf[..]);
    if uso < 48 || uso + 2 > buf.Length || usc == 0 {
      return Success(());
    }
    if uso + 2 * usc > buf.Length {
      return Failure(CorruptedFilesystem);
    }
    hide Tail, Splice, UsaOffset, UsaCount;
    NextTail(1, sector);
    if usc > 1 && Tail(1, sector) < 0 {
      return Failure(Panicked);
    }
    r := RestoreLoop(buf, sector, uso, usc, buf[uso..uso + 2]);
  }

  /** One iteration: checks the tail at `end` and puts back the bytes saved at `slot`. */
  method RestoreOne(buf: array<Byte>, slot: nat, end: nat, seqNumber: seq<Byte>) returns (ok: bool)
    requires slot + 2 <= buf.Length && |seqNumber| == 2
    modifies buf
    ensures ok <==> end + 2 <= buf.Length && old(buf[..])[end..end + 2] == seqNumber
    ensures buf[..] == if ok then Splice(old(buf[..]), end, old(buf[..])[slot..slot + 2]) else old(buf[..])
  {
    if end + 2 > buf.Length {
      return false;
    }
    assert buf[..][end..end + 2] == buf[end..end + 2];
    if buf[end..end + 2] != seqNumber {
      return false;
    }
    var stored := buf[slot..slot + 2];
    assert buf[..][slot..slot + 2] == stored;
    CopyInto(buf, end, stored);
    return true;
  }

  method RestoreLoop(buf: array<Byte>, sector: nat, uso: nat, usc: nat, seqNumber: seq<Byte>)
    returns (r: Outcome<()>)
    requires 0 < usc && uso + 2 * usc <= buf.Length && |seqNumber| == 2 && (usc > 1 ==> sector >= 2)
    modifies buf
    ensures var s := if usc == 1 then Success(old(buf[..]))
                     else RestoreTails(old(buf[..]), sector, seqNumber, uso + 2, sector - 2, usc - 1);
            if s.Success? then r == Success(()) && buf[..] == s.value else r == Failure(s.error)
  {
    hide Tail, Splice, Value, RestoreTails;
    NextTail(1, sector);
    ghost var cur := buf[..];
    ghost var goal := if usc == 1 then Success(cur)
                      else RestoreTails(cur, sector, seqNumber, uso + 2, sector - 2, usc - 1);
    for i := 1 to usc
      invariant buf[..] == cur && |cur| == buf.Length
      invariant usc > 1 ==> Tail(i, sector) >= 0
      invariant usc > 1 ==> goal == RestoreTails(cur, sector, seqNumber, uso + 2 * i, Tail(i, sector), usc - i)
      invariant usc == 1 ==> goal == Success(cur)
    {
      var end: nat := Tail(i, sector);
      RestoreUnfolds(cur, sector, seqNumber, uso + 2 * i, end, usc - i);
      var ok := RestoreOne(buf, uso + 2 * i, end, seqNumber);
      if !ok {
        return Failure(CorruptedFilesystem);
      }
      cur := Splice(cur, end, cur[uso + 2 * i..uso + 2 * i + 2]);
      NextTail(i, sector);
    }
    if usc > 1 {
      RestoreDone(cur, sector, seqNumber, uso + 2 * usc, Tail(usc, sector), usc - usc);
    }
    return Success(());
  }

  lemma RestoreUnfolds(b: seq<Byte>, sector: nat, mark: seq<Byte>, slot: nat, end: nat, n: nat)
    requires n > 0 && slot + 2 * n <= |b| && |mark| == 2
    ensures RestoreTails(b, sector, mark, slot, end, n) ==
            if end + 2 > |b| || b[end..end + 2] != mark then Failure(CorruptedFilesystem)
            else RestoreTails(Splice(b, end, b[slot..slot + 2]), sector, mark, slot + 2, end + sector, n - 1)
  {
  }

  lemma {:induction false} RestoreDone(b: seq<Byte>, sector: nat, mark: seq<Byte>, slot: nat, end: nat, n: nat)
    requires n == 0 && slot + 2 * n <= |b| && |mark| == 2
    ensures RestoreTails(b, sector, mark, slot, end, n) == Success(b)
  {
  }

  method ReapplyFixupsInPlace(buf: array<Byte>, sector: nat) returns (r: Outcome<()>)
    modifies buf
    ensures var s := ReapplyFixups(old(buf[..]), sector);
            if s.Success? then r == Success(()) && buf[..] == s.value else r == Failure(s.error)
  {
    if buf.Length < 8 {
      return Failure(Panicked);
    }
    var uso, usc := UsaOffset(buf[..]), UsaCount(buf[..]);
    if uso < 48 || usc == 0 {
      return Success(());
    }
    if uso + 2 * usc > buf.Length {
      return Failure(CorruptedFilesystem);
    }
    hide Tail, Splice, UsaOffset, UsaCount;
    NextTail(1, sector);
    if usc > 1 && Tail(1, sector) < 0 {
      return Failure(Panicked);
    }
    r := SaveLoop(buf, sector, uso, usc, buf[uso..uso + 2]);
  }

  method SaveLoop(buf: array<Byte>, sector: nat, uso: nat, usc: nat, seqNumber: seq<Byte>)
    returns (r: Outcome<()>)
    requires 0 < usc && uso + 2 * usc <= buf.Length && |seqNumber| == 2 && (usc > 1 ==> sector >= 2)
    modifies buf
    ensures var s := if usc == 1 then Success(old(buf[..]))
                     else SaveTails(old(buf[..]), sector, seqNumber, uso + 2, sector - 2, usc - 1);
            if s.Success? then r == Success(()) && buf[..] == s.value else r == Failure(s.error)
  {
    hide Tail, Splice;
    NextTail(1, sector);
    ghost var goal := if usc == 1 then Success(buf[..])
                      else SaveTails(buf[..], sector, seqNumber, uso + 2, sector - 2, usc - 1);
    for i := 1 to usc
      invariant usc > 1 ==> Tail(i, sector) >= 0
      invariant usc > 1 ==> goal == SaveTails(buf[..], sector, seqNumber, uso + 2 * i, Tail(i, sector), usc - i)
      invariant usc == 1 ==> buf[..] == old(buf[..])
    {
      var end := Tail(i, sector);
      if end + 2 > buf.Length {
        return Failure(CorruptedFilesystem);
      }
      var original := buf[end..end + 2];
      CopyInto(buf, uso + i * 2, original);
      CopyInto(buf, end, seqNumber);
      NextTail(i, sector);
    }
    return Success(());
  }

  // ----- Where the two directions undo each other

  /** The `n` sector tails from `end` on keep clear of the bytes from `lo` to `hi`. */
  ghost predicate Apart(sector: nat, lo: nat, hi: nat, end: nat, n: nat)
    decreases n
  {
    n == 0 || ((end + 2 <= lo || hi <= end) && Apart(sector, lo, hi, end + sector, n - 1))
  }

  lemma {:induction false} ApartBelow(sector: nat, lo: nat, hi: nat, end: nat, n: nat)
    requires hi <= end
    ensures Apart(sector, lo, hi, end, n)
    decreases n
  {
    if n > 0 {
      ApartBelow(sector, lo, hi, end + sector, n - 1);
    }
  }

  lemma {:induction false} ApartWithin(sector: nat, lo: nat, hi: nat, lo': nat, hi': nat, end: nat, n: nat)
    requires Apart(sector, lo, hi, end, n) && lo <= lo' && hi' <= hi
    ensures Apart(sector, lo', hi', end, n)
    decreases n
  {
    if n > 0 {
      ApartWithin(sector, lo, hi, lo', hi', end + sector, n - 1);
    }
  }

  /** Restoring leaves every stretch clear of the tails alone. */
  lemma {:induction false} RestoreKeeps(b: seq<Byte>, sector: nat, mark: seq<Byte>, slot: nat, end: nat, n: nat,
                                        lo: nat, hi: nat)
    requires slot + 2 * n <= |b| && |mark| == 2 && lo <= hi <= |b|
    requires Apart(sector, lo, hi, end, n)
    ensures var r := RestoreTails(b, sector, mark, slot, end, n);
            r.Success? ==> r.value[lo..hi] == b[lo..hi]
    decreases n
  {
    hide Splice;
    if n > 0 && end + 2 <= |b| {
      var b1 := Splice(b, end, b[slot..slot + 2]);
      SpliceOutside(b, end, b[slot..slot + 2], lo, hi);
      RestoreKeeps(b1, sector, mark, slot + 2, end + sector, n - 1, lo, hi);
    }
  }

  /** Saving leaves every stretch clear of the tails and of the slots alone. */
  lemma {:induction false} SaveKeeps(b: seq<Byte>, sector: nat, mark: seq<Byte>, slot: nat, end: nat, n: nat,
                                     lo: nat, hi: nat)
    requires slot + 2 * n <= |b| && |mark| == 2 && lo <= hi <= |b|
    requires Apart(sector, lo, hi, end, n) && (hi <= slot || slot + 2 * n <= lo)
    ensures var r := SaveTails(b, sector, mark, slot, end, n);
            r.Success? ==> r.value[lo..hi] == b[lo..hi]
    decreases n
  {
    hide Splice;
    if n > 0 && end + 2 <= |b| {
      var b0 := Splice(b, slot, b[end..end + 2]);
      SpliceOutside(b, slot, b[end..end + 2], lo, hi);
      SpliceOutside(b0, end, mark, lo, hi);
      SaveKeeps(Splice(b0, end, mark), sector, mark, slot + 2, end + sector, n - 1, lo, hi);
    }
  }

  /** Overwriting a stretch clear of everything restoring looks at can wait until afterwards. */
  lemma {:induction false} RestoreCommutes(b: seq<Byte>, sector: nat, mark: seq<Byte>, slot: nat, end: nat, n: nat,
                                           p: nat, x: seq<Byte>)
    requires slot + 2 * n <= |b| && |mark| == 2 && p + |x| <= |b|
    requires Apart(sector, p, p + |x|, end, n) && (p + |x| <= slot || slot + 2 * n <= p)
    ensures var r := RestoreTails(b, sector, mark, slot, end, n);
            RestoreTails(Splice(b, p, x), sector, mark, slot, end, n) ==
            if r.Success? then Success(Splice(r.value, p, x)) else r
    decreases n
  {
    hide Splice;
    if n > 0 && end + 2 <= |b| {
      SpliceOutside(b, p, x, end, end + 2);
      SpliceOutside(b, p, x, slot, slot + 2);
      SpliceCommutes(b, p, x, end, b[slot..slot + 2]);
      var b1 := Splice(b, end, b[slot..slot + 2]);
      RestoreCommutes(b1, sector, mark, slot + 2, end + sector, n - 1, p, x);
    }
  }

  lemma {:induction false} SaveCommutes(b: seq<Byte>, sector: nat, mark: seq<Byte>, slot: nat, end: nat, n: nat,
                                        p: nat, x: seq<Byte>)
    requires slot + 2 * n <= |b| && |mark| == 2 && p + |x| <= |b|
    requires Apart(sector, p, p + |x|, end, n) && (p + |x| <= slot || slot + 2 * n <= p)
    ensures var r := SaveTails(b, sector, mark, slot, end, n);
            SaveTails(Splice(b, p, x), sector, mark, slot, end, n) ==
            if r.Success? then Success(Splice(r.value, p, x)) else r
    decreases n
  {
    hide Splice;
    if n > 0 && end + 2 <= |b| {
      SpliceOutside(b, p, x, end, end + 2);
      SpliceCommutes(b, p, x, slot, b[end..end + 2]);
      var b0 := Splice(b, slot, b[end..end + 2]);
      SpliceCommutes(b0, p, x, end, mark);
      SaveCommutes(Splice(b0, end, mark), sector, mark, slot + 2, end + sector, n - 1, p, x);
    }
  }

  /** What clearance of the slots from the tails means for the first of `n` sectors. */
  lemma FirstApart(sector: nat, slot: nat, end: nat, n: nat)
    requires n > 0 && sector >= 2 && Apart(sector, slot, slot + 2 * n, end, n)
    ensures end + 2 <= slot || slot + 2 * n <= end
    ensures Apart(sector, slot + 2, slot + 2 + 2 * (n - 1), end + sector, n - 1)
    ensures Apart(sector, slot, slot + 2, end, n) && Apart(sector, slot, slot + 2, end + sector, n - 1)
    ensures Apart(sector, end, end + 2, end + sector, n - 1)
  {
    ApartWithin(sector, slot, slot + 2 * n, slot + 2, slot + 2 * n, end + sector, n - 1);
    ApartWithin(sector, slot, slot + 2 * n, slot, slot + 2, end, n);
    ApartBelow(sector, end, end + 2, end + sector, n - 1);
  }

  /** After restoring, the first tail and the first slot both hold what the slot held. */
  lemma {:induction false} RestoredFirst(b: seq<Byte>, sector: nat, mark: seq<Byte>, slot: nat, end: nat, n: nat)
    requires n > 0 && slot + 2 * n <= |b| && |mark| == 2 && sector >= 2
    requires Apart(sector, slot, slot + 2 * n, end, n)
    ensures var r := RestoreTails(b, sector, mark, slot, end, n);
            r.Success? ==> r.value[end..end + 2] == r.value[slot..slot + 2] == b[slot..slot + 2]
  {
    hide Splice, Apart;
    FirstApart(sector, slot, end, n);
    if end + 2 <= |b| {
      var x := b[slot..slot + 2];
      SpliceInside(b, end, x);
      RestoreKeeps(b, sector, mark, slot, end, n, slot, slot + 2);
      var b1 := Splice(b, end, x);
      RestoreKeeps(b1, sector, mark, slot + 2, end + sector, n - 1, end, end + 2);
    }
  }

  /** Saving undoes restoring. */
  lemma {:induction false} SaveUndoesRestore(b: seq<Byte>, sector: nat, mark: seq<Byte>, slot: nat, end: nat, n: nat)
    requires slot + 2 * n <= |b| && |mark| == 2 && sector >= 2
    requires Apart(sector, slot, slot + 2 * n, end, n)
    ensures var r := RestoreTails(b, sector, mark, slot, end, n);
            r.Success? ==> SaveTails(r.value, sector, mark, slot, end, n) == Success(b)
    decreases n
  {
    hide Splice, Apart;
    var res := RestoreTails(b, sector, mark, slot, end, n);
    if n > 0 && res.Success? {
      var r, x := res.value, b[slot..slot + 2];
      FirstApart(sector, slot, end, n);
      RestoredFirst(b, sector, mark, slot, end, n);
      SpliceAgain(r, slot, x, x);
      SpliceAgain(b, end, x, mark);
      SpliceAgain(b, end, mark, mark);
      SaveUndoesRestore(Splice(b, end, x), sector, mark, slot + 2, end + sector, n - 1);
      SaveCommutes(r, sector, mark, slot + 2, end + sector, n - 1, end, mark);
    }
  }

  /** After saving, the first tail holds the mark and the first slot what the tail held. */
  lemma SavedFirst(c: seq<Byte>, sector: nat, mark: seq<Byte>, slot: nat, end: nat, n: nat)
    requires n > 0 && slot + 2 * n <= |c| && |mark| == 2 && sector >= 2
    requires Apart(sector, slot, slot + 2 * n, end, n)
    ensures var s := SaveTails(c, sector, mark, slot, end, n);
            s.Success? ==>
              && end + 2 <= |c| && s.value[end..end + 2] == mark && s.value[slot..slot + 2] == c[end..end + 2]
              && s == SaveTails(Splice(Splice(c, slot, c[end..end + 2]), end, mark), sector, mark, slot + 2,
                                end + sector, n - 1)
  {
    hide Splice, Apart;
    FirstApart(sector, slot, end, n);
    if end + 2 <= |c| {
      var x := c[end..end + 2];
      var c0 := Splice(c, slot, x);
      SpliceInside(c0, end, mark);
      SpliceInside(c, slot, x);
      SpliceOutside(c0, end, mark, slot, slot + 2);
      SaveKeeps(Splice(c0, end, mark), sector, mark, slot + 2, end + sector, n - 1, end, end + 2);
      SaveKeeps(Splice(c0, end, mark), sector, mark, slot + 2, end + sector, n - 1, slot, slot + 2);
    }
  }

  /** Restoring undoes saving, up to the slots the tails were saved in. */
  lemma {:induction false} RestoreUndoesSave(c: seq<Byte>, sector: nat, mark: seq<Byte>, slot: nat, end: nat, n: nat)
    requires slot + 2 * n <= |c| && |mark| == 2 && sector >= 2
    requires Apart(sector, slot, slot + 2 * n, end, n)
    ensures var s := SaveTails(c, sector, mark, slot, end, n);
            s.Success? ==>
              var t := RestoreTails(s.value, sector, mark, slot, end, n);
              t.Success? && SameOutside(c, t.value, slot, slot + 2 * n)
    decreases n
  {
    hide Splice, Apart, SameOutside;
    SameOutsideItself(c, slot);
    var res := SaveTails(c, sector, mark, slot, end, n);
    if n > 0 && res.Success? {
      FirstApart(sector, slot, end, n);
      SavedFirst(c, sector, mark, slot, end, n);
      var s, x := res.value, c[end..end + 2];
      RestoreUndoesSave(Splice(Splice(c, slot, x), end, mark), sector, mark, slot + 2, end + sector, n - 1);
      RestoreCommutes(s, sector, mark, slot + 2, end + sector, n - 1, end, x);
      OneSlotMore(c, RestoreTails(s, sector, mark, slot + 2, end + sector, n - 1).value, slot, end, mark, n);
    }
  }

  /** Equal length and equal bytes outside a stretch. */
  ghost predicate SameOutside(b: seq<Byte>, c: seq<Byte>, lo: nat, hi: nat) {
    |b| == |c| && forall k | 0 <= k < |b| && !(lo <= k < hi) :: c[k] == b[k]
  }

  lemma SameOutsideItself(b: seq<Byte>, at: nat)
    ensures SameOutside(b, b, at, at)
  {
  }

  lemma OneSlotMore(c: seq<Byte>, t: seq<Byte>, slot: nat, end: nat, mark: seq<Byte>, n: nat)
    requires n > 0 && slot + 2 * n <= |c| && end + 2 <= |c| && |mark| == 2
    requires SameOutside(Splice(Splice(c, slot, c[end..end + 2]), end, mark), t, slot + 2, slot + 2 * n)
    ensures SameOutside(c, Splice(t, end, c[end..end + 2]), slot, slot + 2 * n)
  {
  }

  // ----- The two directions on whole records

  /** The record has fixups, their array fits, and no sector tail touches the array or the header
      fields that describe it. */
  ghost predicate Protected(buf: seq<Byte>, sector: nat) {
    && |buf| >= 8
    && var (uso, usc) := (UsaOffset(buf), UsaCount(buf));
       && uso >= 48 && usc > 0 && uso + 2 * usc <= |buf|
       && (usc > 1 ==>
             && sector >= 2
             && Apart(sector, uso, uso + 2 * usc, sector - 2, usc - 1)
             && Apart(sector, 4, 8, sector - 2, usc - 1))
  }

  /** No sector tail touches the record's signature. */
  ghost predicate SignatureClear(buf: seq<Byte>, sector: nat) {
    |buf| >= 8 && (UsaCount(buf) > 1 ==> sector >= 2 && Apart(sector, 0, 4, sector - 2, UsaCount(buf) - 1))
  }

  /** No fixups: both directions leave such a record alone. */
  ghost predicate Unprotected(buf: seq<Byte>) {
    |buf| >= 8 && (UsaOffset(buf) < 48 || UsaCount(buf) == 0)
  }

  lemma SameDescription(b: seq<Byte>, c: seq<Byte>)
    requires |b| == |c| >= 8 && b[4..8] == c[4..8]
    ensures UsaOffset(b) == UsaOffset(c) && UsaCount(b) == UsaCount(c)
  {
    assert b[4..6] == b[4..8][0..2] && c[4..6] == c[4..8][0..2];
    assert b[6..8] == b[4..8][2..4] && c[6..8] == c[4..8][2..4];
  }

  /** The slots alone keep clear of the tails where the whole array does. */
  lemma SlotsApart(sector: nat, uso: nat, usc: nat)
    requires usc > 1 && sector >= 2 && Apart(sector, uso, uso + 2 * usc, sector - 2, usc - 1)
    ensures Apart(sector, uso + 2, uso + 2 + 2 * (usc - 1), sector - 2, usc - 1)
    ensures Apart(sector, uso, uso + 2, sector - 2, usc - 1)
  {
    ApartWithin(sector, uso, uso + 2 * usc, uso + 2, uso + 2 * usc, sector - 2, usc - 1);
    ApartWithin(sector, uso, uso + 2 * usc, uso, uso + 2, sector - 2, usc - 1);
  }

  /** Neither does saving. */
  lemma SaveKeepsDescription(buf: seq<Byte>, sector: nat, r: seq<Byte>)
    requires Protected(buf, sector) && UsaCount(buf) > 1 && ReapplyFixups(buf, sector) == Success(r)
    ensures UsaOffset(r) == UsaOffset(buf) && UsaCount(r) == UsaCount(buf)
    ensures r[UsaOffset(buf)..UsaOffset(buf) + 2] == buf[UsaOffset(buf)..UsaOffset(buf) + 2]
  {
    hide Apart, UsaOffset, UsaCount, SaveTails;
    var uso, usc := UsaOffset(buf), UsaCount(buf);
    SlotsApart(sector, uso, usc);
    SaveKeeps(buf, sector, buf[uso..uso + 2], uso + 2, sector - 2, usc - 1, 4, 8);
    SaveKeeps(buf, sector, buf[uso..uso + 2], uso + 2, sector - 2, usc - 1, uso, uso + 2);
    SameDescription(buf, r);
  }

  /** A record written and read back is the record, except for the slots that held the tails. */
  lemma ReapplyThenApply(buf: seq<Byte>, sector: nat)
    requires Protected(buf, sector) || Unprotected(buf)
    requires ReapplyFixups(buf, sector).Success?
    ensures var r := ApplyFixups(ReapplyFixups(buf, sector).value, sector);
      && r.Success?
      && (if Protected(buf, sector)
          then SameOutside(buf, r.value, UsaOffset(buf) + 2, UsaOffset(buf) + 2 * UsaCount(buf))
          else r.value == buf)
  {
    hide UsaOffset, UsaCount, Apart, RestoreTails, SaveTails;
    var uso, usc := UsaOffset(buf), UsaCount(buf);
    if Protected(buf, sector) && usc > 1 {
      SlotsApart(sector, uso, usc);
      SaveKeepsDescription(buf, sector, ReapplyFixups(buf, sector).value);
      RestoreUndoesSave(buf, sector, buf[uso..uso + 2], uso + 2, sector - 2, usc - 1);
    }
  }

  // ----- When what was read can be written

  lemma {:induction false} SaveSucceedsIff(b: seq<Byte>, sector: nat, mark: seq<Byte>, slot: nat, end: nat, n: nat)
    requires slot + 2 * n <= |b| && |mark| == 2
    ensures SaveTails(b, sector, mark, slot, end, n).Success? <==> n == 0 || end + (n - 1) * sector + 2 <= |b|
    decreases n
  {
    hide Splice;
    if n > 0 {
      MulMonotone(0, n - 1, sector);
      if n > 1 {
        assert (n - 1) * sector == sector + (n - 2) * sector;
        MulMonotone(0, n - 2, sector);
      }
      if end + 2 <= |b| {
        var saved := Splice(b, slot, b[end..end + 2]);
        SaveSucceedsIff(Splice(saved, end, mark), sector, mark, slot + 2, end + sector, n - 1);
      }
    }
  }

  lemma {:induction false} RestoreInBounds(b: seq<Byte>, sector: nat, mark: seq<Byte>, slot: nat, end: nat, n: nat)
    requires slot + 2 * n <= |b| && |mark| == 2
    ensures RestoreTails(b, sector, mark, slot, end, n).Success? ==> n == 0 || end + (n - 1) * sector + 2 <= |b|
    decreases n
  {
    hide Splice;
    if n > 1 && end + 2 <= |b| {
      RestoreInBounds(Splice(b, end, b[slot..slot + 2]), sector, mark, slot + 2, end + sector, n - 1);
      assert (n - 1) * sector == sector + (n - 2) * sector;
    }
  }

  /** No tail touches the fields that describe the array. No tail does in sectors of at least ten bytes. */
  ghost predicate FieldsClear(buf: seq<Byte>, sector: nat)
    requires |buf| >= 8
  {
    UsaCount(buf) > 1 ==> sector >= 2 && Apart(sector, 4, 8, sector - 2, UsaCount(buf) - 1)
  }

  /** Exactly when a record that can be read can be written back: reading ignores an array whose first entry lies
      past the record's end, and writing refuses it. */
  lemma WritableIff(buf: seq<Byte>, sector: nat)
    requires ApplyFixups(buf, sector).Success? && (sector >= 10 || FieldsClear(buf, sector))
    ensures ReapplyFixups(ApplyFixups(buf, sector).value, sector).Success?
       <==> !(UsaOffset(buf) >= 48 && UsaCount(buf) > 0 && UsaOffset(buf) + 2 > |buf|)
  {
    hide UsaOffset, UsaCount, Apart, RestoreTails, SaveTails;
    var uso, usc, n := UsaOffset(buf), UsaCount(buf), UsaCount(buf) - 1;
    if sector >= 10 {
      ApartBelow(sector, 4, 8, sector - 2, if n > 0 then n else 0);
    }
    if uso >= 48 && usc > 1 && uso + 2 <= |buf| {
      var r, mark := ApplyFixups(buf, sector).value, buf[uso..uso + 2];
      RestoreKeeps(buf, sector, mark, uso + 2, sector - 2, n, 4, 8);
      SameDescription(r, buf);
      RestoreInBounds(buf, sector, mark, uso + 2, sector - 2, n);
      SaveSucceedsIff(r, sector, r[uso..uso + 2], uso + 2, sector - 2, n);
    }
  }

  /** A record of 1024 bytes that is read and cannot be written back, whatever the sectors. */
  lemma ReadableButNotWritable(sector: nat)
    ensures exists buf: seq<Byte> :: |buf| == 1024 && ApplyFixups(buf, sector) == Success(buf)
                                  && ReapplyFixups(buf, sector) == Failure(CorruptedFilesystem)
  {
    hide LE, Value;
    var buf := Zeros(4) + LE(2, 1023) + LE(2, 1) + Zeros(1016);
    Widths();
    ValueFits(2, 1023);
    ValueFits(2, 1);
    assert buf[4..6] == LE(2, 1023) && buf[6..8] == LE(2, 1);
    assert ApplyFixups(buf, sector) == Success(buf);
  }
}
