/** What the fixups do to a record whose array lies in front of its first tail, byte by byte. */
module NtfsSectors {
  import opened Wrappers
  import opened Bytes
  import opened NtfsTypes
  import opened NtfsFixups
  import opened NtfsClearance
  import opened NtfsExternal

  /** The last two bytes of sector `j`, counting from zero. */
  function TailOf(sector: nat, j: nat): nat
    requires sector >= 2
  {
    j * sector + sector - 2
  }

  /** The array: its fields in the header, in front of the first tail, within the record. */
  ghost predicate ArrayAt(b: seq<Byte>, sector: nat, uso: nat, n: nat) {
    && |b| >= 8 && sector >= 2 && b[4..6] == LE(2, uso) && b[6..8] == LE(2, n + 1) && n < 0xFFFF
    && 48 <= uso && uso + 2 * (n + 1) <= sector - 2 && uso + 2 * (n + 1) <= |b| && uso < 0x1_0000
  }

  /** The `n` sectors lie in the record. */
  ghost predicate Whole(b: seq<Byte>, sector: nat, n: nat)
    requires sector >= 2
  {
    forall j: nat | j < n :: TailOf(sector, j) + 2 <= |b|
  }

  /** The sectors lie in the record and end with the sequence number. */
  ghost predicate EndsMarked(b: seq<Byte>, sector: nat, mark: seq<Byte>, n: nat)
    requires sector >= 2
  {
    forall j: nat | j < n ::
      TailOf(sector, j) + 2 <= |b| && b[TailOf(sector, j)..TailOf(sector, j) + 2] == mark
  }

  /** A byte of none of the tails. */
  ghost predicate Inner(sector: nat, n: nat, k: nat)
    requires sector >= 2
  {
    forall j: nat | j < n :: k < TailOf(sector, j) || TailOf(sector, j) + 2 <= k
  }

  lemma TailAt(sector: nat, j: nat)
    requires sector >= 2
    ensures TailOf(sector, j) == At(sector - 2, sector, j) >= sector - 2
  {
    MulMonotone(0, j, sector);
  }

  lemma Shifted(end: nat, next: nat, sector: nat, n: nat)
    requires next == end + sector
    ensures At(end, sector, 0) == end
    ensures forall j: nat | j < n :: At(next, sector, j) == At(end, sector, j + 1)
    ensures forall j: nat | 0 < j <= n :: At(end, sector, j) == At(next, sector, j - 1)
  {
    AtSum(end, sector, 0, 0);
    forall j: nat | j < n ensures At(next, sector, j) == At(end, sector, j + 1) {
      AtSum(end, sector, 1, j);
    }
    forall j: nat | 0 < j <= n ensures At(end, sector, j) == At(next, sector, j - 1) {
      AtSum(end, sector, 1, j - 1);
    }
  }

  lemma {:induction false} ApartIf(sector: nat, lo: nat, hi: nat, end: nat, n: nat)
    requires forall j: nat | j < n :: At(end, sector, j) + 2 <= lo || hi <= At(end, sector, j)
    ensures NtfsFixups.Apart(sector, lo, hi, end, n)
    decreases n
  {
    hide At;
    if n > 0 {
      Shifted(end, end + sector, sector, n - 1);
      ApartIf(sector, lo, hi, end + sector, n - 1);
    }
  }

  lemma {:induction false} RestoreIff(b: seq<Byte>, sector: nat, mark: seq<Byte>, slot: nat, end: nat, n: nat)
    requires slot + 2 * n <= |b| && |mark| == 2 && sector >= 2
    ensures RestoreTails(b, sector, mark, slot, end, n).Success? <==>
            forall j: nat | j < n ::
              At(end, sector, j) + 2 <= |b| && b[At(end, sector, j)..At(end, sector, j) + 2] == mark
    decreases n
  {
    hide At, Splice;
    if n > 0 {
      Shifted(end, end + sector, sector, n - 1);
      if end + 2 <= |b| && b[end..end + 2] == mark {
        var x := b[slot..slot + 2];
        RestoreIff(Splice(b, end, x), sector, mark, slot + 2, end + sector, n - 1);
        forall j: nat | 0 < j < n && At(end, sector, j) + 2 <= |b|
          ensures Splice(b, end, x)[At(end, sector, j)..At(end, sector, j) + 2]
               == b[At(end, sector, j)..At(end, sector, j) + 2]
        {
          AtOrder(end, sector, 0, j);
          SpliceOutside(b, end, x, At(end, sector, j), At(end, sector, j) + 2);
        }
      } else {
        assert At(end, sector, 0) == end;
      }
    }
  }

  lemma {:induction false} SaveIff(b: seq<Byte>, sector: nat, mark: seq<Byte>, slot: nat, end: nat, n: nat)
    requires slot + 2 * n <= |b| && |mark| == 2 && sector >= 2
    ensures SaveTails(b, sector, mark, slot, end, n).Success? <==>
            forall j: nat | j < n :: At(end, sector, j) + 2 <= |b|
    decreases n
  {
    hide At, Splice;
    if n > 0 {
      Shifted(end, end + sector, sector, n - 1);
      if end + 2 <= |b| {
        var saved := Splice(b, slot, b[end..end + 2]);
        SaveIff(Splice(saved, end, mark), sector, mark, slot + 2, end + sector, n - 1);
      } else {
        assert At(end, sector, 0) == end;
      }
    }
  }

  lemma ArrayFields(b: seq<Byte>, sector: nat, uso: nat, n: nat)
    requires ArrayAt(b, sector, uso, n)
    ensures UsaOffset(b) == uso && UsaCount(b) == n + 1
  {
    hide LE, Value;
    Widths();
    ValueFits(2, uso);
    ValueFits(2, n + 1);
  }

  lemma TailsAt(sector: nat, end: nat, n: nat)
    requires sector >= 2 && end == sector - 2
    ensures forall j: nat | j < n :: TailOf(sector, j) == At(end, sector, j) >= end
  {
    hide At, TailOf;
    forall j: nat | j < n ensures TailOf(sector, j) == At(end, sector, j) >= end {
      TailAt(sector, j);
    }
  }

  /** Undoing the fixups succeeds exactly when every sector ends with the sequence number. Then every sector ends
      with the two bytes that the array keeps for it, and no other byte changes. */
  lemma ApplyIs(b: seq<Byte>, sector: nat, uso: nat, n: nat)
    requires ArrayAt(b, sector, uso, n)
    ensures ApplyFixups(b, sector).Success? <==> EndsMarked(b, sector, b[uso..uso + 2], n)
    ensures ApplyFixups(b, sector).Failure? ==> ApplyFixups(b, sector) == Failure(CorruptedFilesystem)
    ensures ApplyFixups(b, sector).Success? ==>
              Undone(b, ApplyFixups(b, sector).value, sector, uso, n)
  {
    hide At, TailOf, RestoreTails, UsaOffset, UsaCount;
    ArrayFields(b, sector, uso, n);
    RestoredIs(b, sector, uso, n);
  }

  /** `r` is `b` with the tails taken from the array at `uso`. */
  ghost predicate Undone(b: seq<Byte>, r: seq<Byte>, sector: nat, uso: nat, n: nat)
    requires sector >= 2 && uso + 2 * (n + 1) <= |b|
  {
    && |r| == |b| && Whole(b, sector, n)
    && (forall j: nat | j < n ::
          r[TailOf(sector, j)..TailOf(sector, j) + 2] == b[uso + 2 + 2 * j..uso + 4 + 2 * j])
    && (forall k: nat | k < |b| && Inner(sector, n, k) :: r[k] == b[k])
  }

  lemma RestoredIs(b: seq<Byte>, sector: nat, uso: nat, n: nat)
    requires |b| >= uso + 2 * (n + 1) && 2 <= sector && uso + 2 * (n + 1) <= sector - 2
    ensures var r := RestoreTails(b, sector, b[uso..uso + 2], uso + 2, sector - 2, n);
      && (r.Success? <==> EndsMarked(b, sector, b[uso..uso + 2], n))
      && (r.Failure? ==> r.error == CorruptedFilesystem)
      && (r.Success? ==> Undone(b, r.value, sector, uso, n))
  {
    hide At, TailOf, RestoreTails;
    var mark, slot, end := b[uso..uso + 2], uso + 2, sector - 2;
    TailsAt(sector, end, n);
    RestoreIff(b, sector, mark, slot, end, n);
    RestoreFails(b, sector, mark, slot, end, n);
    if RestoreTails(b, sector, mark, slot, end, n).Success? {
      var r := RestoreTails(b, sector, mark, slot, end, n).value;
      forall j: nat | j < n
        ensures TailOf(sector, j) + 2 <= |b|
        ensures r[TailOf(sector, j)..TailOf(sector, j) + 2] == b[uso + 2 + 2 * j..uso + 4 + 2 * j]
      {
        ApartBelow(sector, slot + 2 * j, slot + 2 * j + 2, end, j);
        RestoreTailIs(b, sector, mark, slot, end, n, j);
      }
      forall k: nat | k < |b| && Inner(sector, n, k) ensures r[k] == b[k] {
        InnerApart(sector, n, k);
        RestoreKeeps(b, sector, mark, slot, end, n, k, k + 1);
        SameByte(r, b, k);
      }
    }
  }

  lemma {:induction false} RestoreFails(b: seq<Byte>, sector: nat, mark: seq<Byte>, slot: nat, end: nat, n: nat)
    requires slot + 2 * n <= |b| && |mark| == 2
    ensures var r := RestoreTails(b, sector, mark, slot, end, n); r.Failure? ==> r.error == CorruptedFilesystem
    decreases n
  {
    if n > 0 && end + 2 <= |b| {
      RestoreFails(Splice(b, end, b[slot..slot + 2]), sector, mark, slot + 2, end + sector, n - 1);
    }
  }

  /** `w` is `b` with the tails kept in the array at `uso` and the mark in their place. */
  ghost predicate Redone(b: seq<Byte>, w: seq<Byte>, sector: nat, mark: seq<Byte>, uso: nat, n: nat)
    requires sector >= 2 && uso + 2 * (n + 1) <= |b|
  {
    && |w| == |b| && Whole(b, sector, n) && EndsMarked(w, sector, mark, n)
    && (forall j: nat | j < n ::
          w[uso + 2 + 2 * j..uso + 4 + 2 * j] == b[TailOf(sector, j)..TailOf(sector, j) + 2])
    && (forall k: nat | k < |b| && Inner(sector, n, k) && !(uso + 2 <= k < uso + 2 + 2 * n) :: w[k] == b[k])
  }

  lemma NoTails(b: seq<Byte>, sector: nat, mark: seq<Byte>, uso: nat)
    requires sector >= 2 && uso + 2 <= |b|
    ensures Redone(b, b, sector, mark, uso, 0) && EndsMarked(b, sector, mark, 0)
  {
  }

  lemma SavedIs(b: seq<Byte>, sector: nat, mark: seq<Byte>, uso: nat, n: nat)
    requires |b| >= uso + 2 * (n + 1) && 2 <= sector && uso + 2 * (n + 1) <= sector - 2 && |mark| == 2
    requires SaveTails(b, sector, mark, uso + 2, sector - 2, n).Success?
    ensures Redone(b, SaveTails(b, sector, mark, uso + 2, sector - 2, n).value, sector, mark, uso, n)
  {
    hide At, TailOf, SaveTails, Inner, EndsMarked;
    var slot, end := uso + 2, sector - 2;
    var w := SaveTails(b, sector, mark, slot, end, n).value;
    SaveIff(b, sector, mark, slot, end, n);
    TailsAt(sector, sector - 2, n);
    forall j: nat | j < n
      ensures TailOf(sector, j) + 2 <= |b| && w[TailOf(sector, j)..TailOf(sector, j) + 2] == mark
      ensures w[uso + 2 + 2 * j..uso + 4 + 2 * j] == b[TailOf(sector, j)..TailOf(sector, j) + 2]
    {
      SavedPair(b, sector, mark, slot, end, n, j);
    }
    assert EndsMarked(w, sector, mark, n) by {
      MarkedMeans(w, sector, mark, n);
    }
    forall k: nat | k < |b| && Inner(sector, n, k) && !(slot <= k < slot + 2 * n) ensures w[k] == b[k] {
      InnerApart(sector, n, k);
      SaveKeeps(b, sector, mark, slot, end, n, k, k + 1);
      SameByte(w, b, k);
    }
  }

  lemma MarkedMeans(w: seq<Byte>, sector: nat, mark: seq<Byte>, n: nat)
    requires sector >= 2
    requires forall j: nat | j < n ::
               TailOf(sector, j) + 2 <= |w| && w[TailOf(sector, j)..TailOf(sector, j) + 2] == mark
    ensures EndsMarked(w, sector, mark, n)
  {
  }

  lemma {:induction false} InnerApart(sector: nat, n: nat, k: nat)
    requires sector >= 2 && Inner(sector, n, k)
    ensures NtfsFixups.Apart(sector, k, k + 1, sector - 2, n)
  {
    hide At, TailOf;
    TailsAt(sector, sector - 2, n);
    ApartIf(sector, k, k + 1, sector - 2, n);
  }

  lemma {:induction false} SavedByte(b: seq<Byte>, sector: nat, mark: seq<Byte>, slot: nat, end: nat, n: nat, j: nat,
                                     e: nat)
    requires j < n && slot + 2 * n <= |b| && |mark| == 2 && sector >= 2 && e < 2 && slot + 2 * n <= end
    requires At(end, sector, j) >= end && SaveTails(b, sector, mark, slot, end, n).Success?
    ensures var w := SaveTails(b, sector, mark, slot, end, n).value;
      && At(end, sector, j) + 2 <= |b|
      && w[At(end, sector, j) + e] == mark[e] && w[slot + 2 * j + e] == b[At(end, sector, j) + e]
  {
    hide At, SaveTails;
    SaveTailIs(b, sector, mark, slot, end, n, j, e);
    ApartBelow(sector, slot + 2 * j + e, slot + 2 * j + e + 1, At(end, sector, j) + sector, n - j - 1);
    SaveByteIs(b, sector, mark, slot, end, n, j, e);
  }

  lemma {:induction false} SavedPair(b: seq<Byte>, sector: nat, mark: seq<Byte>, slot: nat, end: nat, n: nat, j: nat)
    requires j < n && slot + 2 * n <= |b| && |mark| == 2 && sector >= 2 && slot + 2 * n <= end
    requires At(end, sector, j) >= end && SaveTails(b, sector, mark, slot, end, n).Success?
    ensures var w, t := SaveTails(b, sector, mark, slot, end, n).value, At(end, sector, j);
      t + 2 <= |b| && w[t..t + 2] == mark && w[slot + 2 * j..slot + 2 * j + 2] == b[t..t + 2]
  {
    hide At, SaveTails;
    var w, t := SaveTails(b, sector, mark, slot, end, n).value, At(end, sector, j);
    SavedByte(b, sector, mark, slot, end, n, j, 0);
    SavedByte(b, sector, mark, slot, end, n, j, 1);
    TwoBytesSame(w, t, mark, 0);
    TwoBytesSame(w, slot + 2 * j, b, t);
    assert mark[0..2] == mark;
  }

  lemma TwoBytesSame(a: seq<Byte>, i: nat, b: seq<Byte>, j: nat)
    requires i + 2 <= |a| && j + 2 <= |b| && a[i] == b[j] && a[i + 1] == b[j + 1]
    ensures a[i..i + 2] == b[j..j + 2]
  {
  }

  /** Redoing the fixups succeeds exactly when the sectors lie in the record. Then every sector ends with the
      sequence number, the array keeps what was there, and no other byte changes. */
  lemma ReapplyIs(b: seq<Byte>, sector: nat, uso: nat, n: nat)
    requires ArrayAt(b, sector, uso, n)
    ensures ReapplyFixups(b, sector).Success? <==> Whole(b, sector, n)
    ensures ReapplyFixups(b, sector).Success? ==>
              Redone(b, ReapplyFixups(b, sector).value, sector, b[uso..uso + 2], uso, n)
  {
    hide At, TailOf, SaveTails, UsaOffset, UsaCount;
    NoTails(b, sector, b[uso..uso + 2], uso);
    ArrayFields(b, sector, uso, n);
    TailsAt(sector, sector - 2, n);
    if n > 0 {
      SaveIff(b, sector, b[uso..uso + 2], uso + 2, sector - 2, n);
      if SaveTails(b, sector, b[uso..uso + 2], uso + 2, sector - 2, n).Success? {
        SavedIs(b, sector, b[uso..uso + 2], uso, n);
      }
    }
  }

  // ----- A block of an external index

  /** A block with the signature of an index block and an array in front of its first tail. Its sectors have 512
      bytes whatever those of the volume are. */
  ghost predicate BlockArrayAt(b: seq<Byte>, uso: nat, n: nat) {
    && |b| >= 8 && b[0..4] == [0x49, 0x4E, 0x44, 0x58] && b[4..6] == LE(2, uso) && b[6..8] == LE(2, n + 1)
    && 24 <= uso && uso + 2 * (n + 1) <= 510 && uso + 2 * (n + 1) <= |b|
  }

  lemma BlockFields(b: seq<Byte>, uso: nat, n: nat)
    requires BlockArrayAt(b, uso, n)
    ensures UsaOffset(b) == uso && UsaCount(b) == n + 1
  {
    hide LE, Value;
    Widths();
    ValueFits(2, uso);
    ValueFits(2, n + 1);
  }

  /** What adding an entry makes of a block: its fixups are undone, the entry is inserted, and they are done again
      with the same sequence number. */
  lemma BlockIs(b: seq<Byte>, e: seq<Byte>, uso: nat, n: nat) returns (undone: seq<Byte>)
    requires BlockArrayAt(b, uso, n)
    ensures !EndsMarked(b, 512, b[uso..uso + 2], n) ==> BlockEdited(b, e) == Failure(CorruptedFilesystem)
    ensures EndsMarked(b, 512, b[uso..uso + 2], n) ==>
              && Undone(b, undone, 512, uso, n)
              && match BlockInserted(undone, e)
                 case Failure(error) => BlockEdited(b, e) == Failure(error)
                 case Success(inserted) =>
                   && BlockEdited(b, e).Success?
                   && Redone(inserted, BlockEdited(b, e).value, 512, b[uso..uso + 2], uso, n)
  {
    hide At, TailOf, RestoreTails, SaveTails, UsaOffset, UsaCount, BlockInserted, EndsMarked, Undone, Redone;
    var mark := b[uso..uso + 2];
    BlockFields(b, uso, n);
    RestoredIs(b, 512, uso, n);
    assert EndsMarked(b, 512, mark, 0) by {
      NoTails(b, 512, mark, uso);
    }
    undone := b;
    if EndsMarked(b, 512, mark, n) {
      undone := RestoreTails(b, 512, mark, uso + 2, 510, n).value;
      NothingRestored(b, 512, mark, uso + 2, 510);
      var inserted := BlockInserted(undone, e);
      if inserted.Success? {
        MarkedIsWhole(b, 512, mark, n);
        SaveSucceeds(inserted.value, 512, mark, uso + 2, n);
        SavedIs(inserted.value, 512, mark, uso, n);
        NothingSaved(inserted.value, 512, mark, uso + 2, 510);
      }
    }
  }

  lemma {:induction false} NothingRestored(b: seq<Byte>, sector: nat, mark: seq<Byte>, slot: nat, end: nat)
    requires slot <= |b| && |mark| == 2
    ensures RestoreTails(b, sector, mark, slot, end, 0) == Success(b)
  {
  }

  lemma {:induction false} NothingSaved(b: seq<Byte>, sector: nat, mark: seq<Byte>, slot: nat, end: nat)
    requires slot <= |b| && |mark| == 2
    ensures SaveTails(b, sector, mark, slot, end, 0) == Success(b)
  {
  }

  lemma MarkedIsWhole(b: seq<Byte>, sector: nat, mark: seq<Byte>, n: nat)
    requires sector >= 2 && EndsMarked(b, sector, mark, n)
    ensures Whole(b, sector, n)
  {
  }

  lemma SaveSucceeds(b: seq<Byte>, sector: nat, mark: seq<Byte>, slot: nat, n: nat)
    requires sector >= 2 && slot + 2 * n <= |b| && |mark| == 2 && Whole(b, sector, n)
    ensures SaveTails(b, sector, mark, slot, sector - 2, n).Success?
  {
    hide At, TailOf, SaveTails;
    TailsAt(sector, sector - 2, n);
    SaveIff(b, sector, mark, slot, sector - 2, n);
  }
}
