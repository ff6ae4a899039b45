/** When reading a record and writing it back changes nothing: exactly where sector tails may lie relative
    to the fixup array. */
module NtfsClearance {
  import opened Wrappers
  import opened Arithmetic
  import opened Bytes
  import opened NtfsFixups

  // ----- Tails that do no harm

  /** Of `n` sectors whose first tail is at `end` and first slot at `slot`, in an array that starts at `lo`:
      every tail is clear of the array, or lies on its own slot. It may lie a byte low, and the last one a byte
      high. */
  ghost predicate Harmless(sector: nat, lo: nat, slot: nat, end: nat, n: nat)
    decreases n
  {
    n == 0 ||
    (&& (end + 2 <= lo || slot + 2 * n <= end || end + 1 == slot || end == slot || (end == slot + 1 && n == 1))
     && Harmless(sector, lo, slot + 2, end + sector, n - 1))
  }

  /** The record has fixups, their array fits, no tail touches the fields that describe it, and every tail
      is harmless to it. */
  ghost predicate Clear(buf: seq<Byte>, sector: nat) {
    && |buf| >= 8 && ClearOfTails(sector, UsaOffset(buf), UsaCount(buf)) && UsaOffset(buf) + 2 * UsaCount(buf) <= |buf|
  }

  ghost predicate ClearOfTails(sector: nat, uso: nat, usc: nat) {
    && uso >= 48 && usc > 0
    && (usc > 1 ==>
          && sector >= 2 && Apart(sector, 4, 8, sector - 2, usc - 1)
          && Harmless(sector, uso, uso + 2, sector - 2, usc - 1))
  }

  /** Keeping clear of the whole array is more than enough. */
  lemma ProtectedIsClear(buf: seq<Byte>, sector: nat)
    requires Protected(buf, sector)
    ensures Clear(buf, sector)
  {
    hide UsaOffset, UsaCount, Apart, Harmless;
    var uso, usc := UsaOffset(buf), UsaCount(buf);
    if usc > 1 {
      ApartIsHarmless(sector, uso, uso + 2, sector - 2, usc - 1);
    }
  }

  lemma {:induction false} ApartIsHarmless(sector: nat, lo: nat, slot: nat, end: nat, n: nat)
    requires Apart(sector, lo, slot + 2 * n, end, n)
    ensures Harmless(sector, lo, slot, end, n)
    decreases n
  {
    if n > 0 {
      ApartIsHarmless(sector, lo, slot + 2, end + sector, n - 1);
    }
  }

  /** Later tails leave an earlier stretch of the array alone, but for the byte before their own slot. */
  lemma {:induction false} HarmlessApart(sector: nat, lo: nat, slot: nat, end: nat, n: nat, p: nat, q: nat)
    requires Harmless(sector, lo, slot, end, n) && lo <= p <= q < slot
    ensures Apart(sector, p, q, end, n)
    decreases n
  {
    if n > 0 {
      HarmlessApart(sector, lo, slot + 2, end + sector, n - 1, p, q);
    }
  }

  // ----- Saving undoes restoring

  /** The first step of restoring, and what is left of it in the result. */
  lemma RestoredTail(b: seq<Byte>, sector: nat, mark: seq<Byte>, slot: nat, end: nat, n: nat)
    requires n > 0 && slot + 2 * n <= |b| && |mark| == 2 && sector >= 2
    requires RestoreTails(b, sector, mark, slot, end, n).Success?
    ensures end + 2 <= |b| && b[end..end + 2] == mark
    ensures var r := RestoreTails(b, sector, mark, slot, end, n).value;
      r == RestoreTails(Splice(b, end, b[slot..slot + 2]), sector, mark, slot + 2, end + sector, n - 1).value
      && r[end..end + 2] == b[slot..slot + 2]
  {
    hide Splice, Apart;
    var x := b[slot..slot + 2];
    ApartBelow(sector, end, end + 2, end + sector, n - 1);
    RestoreKeeps(Splice(b, end, x), sector, mark, slot + 2, end + sector, n - 1, end, end + 2);
    SpliceInside(b, end, x);
  }

  /** One step of saving on what restoring gave, if the next tail keeps off this slot: it only puts the mark
      back. */
  lemma StepBack(b: seq<Byte>, r: seq<Byte>, mark: seq<Byte>, slot: nat, end: nat)
    requires slot + 2 <= |b| && end + 2 <= |b| && |r| == |b| && |mark| == 2
    requires b[end..end + 2] == mark && r[end..end + 2] == b[slot..slot + 2]
    requires r[slot..slot + 2] == Splice(b, end, b[slot..slot + 2])[slot..slot + 2]
    requires end + 2 <= slot || slot + 2 <= end || end == slot || end + 1 == slot
    ensures Splice(Splice(r, slot, r[end..end + 2]), end, mark) == Splice(r, end, mark)
    ensures end == slot ==> Splice(r, end, mark) == r
  {
    var x := b[slot..slot + 2];
    if end + 2 <= slot || slot + 2 <= end {
      SpliceOutside(b, end, x, slot, slot + 2);
      SpliceAgain(r, slot, x, x);
    } else if end == slot {
      SpliceAgain(r, slot, mark, mark);
    } else {
      var c := Splice(b, end, x);
      assert c[slot + 1] == b[slot + 1];
      assert r[slot + 1] == r[slot..slot + 2][1] == c[slot..slot + 2][1];
      assert x[1] == b[slot + 1];
    }
  }

  /** The last tail may lie a byte above its slot. */
  lemma LastByteHigh(b: seq<Byte>, mark: seq<Byte>, slot: nat)
    requires slot + 3 <= |b| && |mark| == 2 && b[slot + 1..slot + 3] == mark
    ensures var r := Splice(b, slot + 1, b[slot..slot + 2]);
      Splice(Splice(r, slot, r[slot + 1..slot + 3]), slot + 1, mark) == b
  {
    var r := Splice(b, slot + 1, b[slot..slot + 2]);
    assert b[slot + 1] == mark[0] && b[slot + 2] == mark[1];
    SpliceInside(b, slot + 1, b[slot..slot + 2]);
  }

  /** Saving does not look at the byte before a slot if the tail starts there: the mark covers what was
      saved of it. */
  lemma SaveForgets(r: seq<Byte>, sector: nat, mark: seq<Byte>, slot: nat, n: nat, z: Byte)
    requires n > 0 && 0 < slot && slot + 2 * n <= |r| && |mark| == 2
    ensures SaveTails(r[slot - 1 := z], sector, mark, slot, slot - 1, n)
         == SaveTails(r, sector, mark, slot, slot - 1, n)
  {
    var end, r' := slot - 1, r[slot - 1 := z];
    assert r'[end..end + 2] == [z, r[slot]] && r[end..end + 2] == [r[end], r[slot]];
    assert Splice(Splice(r', slot, [z, r[slot]]), end, mark) == Splice(Splice(r, slot, [r[end], r[slot]]), end, mark);
  }

  lemma SaveUnfolds(r: seq<Byte>, sector: nat, mark: seq<Byte>, slot: nat, end: nat, n: nat)
    requires n > 0 && slot + 2 * n <= |r| && |mark| == 2 && end + 2 <= |r|
    ensures SaveTails(r, sector, mark, slot, end, n)
         == SaveTails(Splice(Splice(r, slot, r[end..end + 2]), end, mark), sector, mark, slot + 2, end + sector, n - 1)
  {
  }

  /** Saving undoes restoring wherever all tails are harmless. */
  lemma {:induction false} SaveUndoesRestoreClear(b: seq<Byte>, sector: nat, mark: seq<Byte>, lo: nat, slot: nat,
                                                  end: nat, n: nat)
    requires slot + 2 * n <= |b| && |mark| == 2 && sector >= 4 && lo + 2 <= slot
    requires Harmless(sector, lo, slot, end, n)
    ensures var r := RestoreTails(b, sector, mark, slot, end, n);
            r.Success? ==> SaveTails(r.value, sector, mark, slot, end, n) == Success(b)
    decreases n
  {
    hide Splice, Apart, RestoreTails, SaveTails;
    var res := RestoreTails(b, sector, mark, slot, end, n);
    if n == 0 {
      NothingToDo(b, sector, mark, slot, end);
    } else if res.Success? {
      RestoredTail(b, sector, mark, slot, end, n);
      var r, x := res.value, b[slot..slot + 2];
      var b1 := Splice(b, end, x);
      RestoreUnfolds(b, sector, mark, slot, end, n);
      SaveUndoesRestoreClear(b1, sector, mark, lo, slot + 2, end + sector, n - 1);
      SaveUnfolds(r, sector, mark, slot, end, n);
      if end == slot + 1 {
        NothingToDo(b1, sector, mark, slot + 2, end + sector);
        LastByteHigh(b, mark, slot);
        NothingToDo(b, sector, mark, slot + 2, end + sector);
      } else {
        if n > 1 && end + sector == slot + 1 {
          NextOnSlot(b, sector, mark, lo, slot, end, n);
        } else {
          SlotKept(b, sector, mark, lo, slot, end, n);
          StepBack(b, r, mark, slot, end);
        }
        ApartBelow(sector, end, end + 2, end + sector, n - 1);
        SpliceAgain(b, end, x, mark);
        SpliceAgain(b, end, mark, mark);
        SaveCommutes(r, sector, mark, slot + 2, end + sector, n - 1, end, mark);
      }
    }
  }

  lemma {:induction false} NothingToDo(b: seq<Byte>, sector: nat, mark: seq<Byte>, slot: nat, end: nat)
    requires slot <= |b| && |mark| == 2
    ensures RestoreTails(b, sector, mark, slot, end, 0) == Success(b)
    ensures SaveTails(b, sector, mark, slot, end, 0) == Success(b)
  {
  }

  /** If the next tail does not start on this slot's second byte, restoring the rest leaves the slot alone. */
  lemma {:induction false} SlotKept(b: seq<Byte>, sector: nat, mark: seq<Byte>, lo: nat, slot: nat, end: nat, n: nat)
    requires n > 0 && slot + 2 * n <= |b| && |mark| == 2 && sector >= 4 && lo + 2 <= slot && end + 2 <= |b|
    requires Harmless(sector, lo, slot, end, n) && !(n > 1 && end + sector == slot + 1)
    ensures var b1 := Splice(b, end, b[slot..slot + 2]);
            var r := RestoreTails(b1, sector, mark, slot + 2, end + sector, n - 1);
            r.Success? ==> r.value[slot..slot + 2] == b1[slot..slot + 2]
  {
    hide Splice, Apart, RestoreTails;
    var b1 := Splice(b, end, b[slot..slot + 2]);
    if n > 1 {
      HarmlessApart(sector, lo, slot + 4, end + sector + sector, n - 2, slot, slot + 2);
      ApartFirst(sector, slot, slot + 2, end + sector, n - 1);
    } else {
      ApartNone(sector, slot, slot + 2, end + sector);
    }
    RestoreKeeps(b1, sector, mark, slot + 2, end + sector, n - 1, slot, slot + 2);
  }

  lemma ApartFirst(sector: nat, lo: nat, hi: nat, end: nat, n: nat)
    requires n > 0 && (end + 2 <= lo || hi <= end) && Apart(sector, lo, hi, end + sector, n - 1)
    ensures Apart(sector, lo, hi, end, n)
  {
  }

  lemma {:induction false} ApartNone(sector: nat, lo: nat, hi: nat, end: nat)
    ensures Apart(sector, lo, hi, end, 0)
  {
  }

  /** If the next tail does, putting this slot back changes only a byte that saving the next forgets. */
  lemma {:induction false} NextOnSlot(b: seq<Byte>, sector: nat, mark: seq<Byte>, lo: nat, slot: nat, end: nat, n: nat)
    requires n > 1 && slot + 2 * n <= |b| && |mark| == 2 && sector >= 4 && lo + 2 <= slot
    requires Harmless(sector, lo, slot, end, n) && end + sector == slot + 1
    requires RestoreTails(b, sector, mark, slot, end, n).Success?
    ensures end + 2 <= slot
    ensures var r := RestoreTails(b, sector, mark, slot, end, n).value;
      SaveTails(Splice(Splice(r, slot, r[end..end + 2]), end, mark), sector, mark, slot + 2, end + sector, n - 1)
      == SaveTails(Splice(r, end, mark), sector, mark, slot + 2, end + sector, n - 1)
  {
    hide Splice, Harmless, RestoreTails, SaveTails;
    var r, x := RestoreTails(b, sector, mark, slot, end, n).value, b[slot..slot + 2];
    FirstByteBack(b, sector, mark, lo, slot, end, n);
    OneByte(r, slot, x, end, mark);
    SaveForgets(Splice(r, end, mark), sector, mark, slot + 2, n - 1, x[1]);
  }

  lemma {:induction false} FirstByteBack(b: seq<Byte>, sector: nat, mark: seq<Byte>, lo: nat, slot: nat, end: nat,
                                         n: nat)
    requires n > 1 && slot + 2 * n <= |b| && |mark| == 2 && sector >= 4 && lo + 2 <= slot
    requires Harmless(sector, lo, slot, end, n) && end + sector == slot + 1
    requires RestoreTails(b, sector, mark, slot, end, n).Success?
    ensures var r := RestoreTails(b, sector, mark, slot, end, n).value;
      end + 2 <= slot && r[slot] == b[slot] && r[end..end + 2] == b[slot..slot + 2]
  {
    hide Splice, RestoreTails;
    RestoredTail(b, sector, mark, slot, end, n);
    var b1 := Splice(b, end, b[slot..slot + 2]);
    RestoreUnfolds(b, sector, mark, slot, end, n);
    FirstByteKept(b1, sector, mark, lo, slot, n - 1);
    SpliceOutside(b, end, b[slot..slot + 2], slot, slot + 2);
    assert b1[slot] == b1[slot..slot + 2][0] == b[slot..slot + 2][0] == b[slot];
  }

  lemma FirstByteKept(b: seq<Byte>, sector: nat, mark: seq<Byte>, lo: nat, slot: nat, n: nat)
    requires n > 0 && slot + 2 + 2 * n <= |b| && |mark| == 2 && sector >= 4 && lo + 2 <= slot
    requires Harmless(sector, lo, slot + 2, slot + 1, n)
    ensures var r := RestoreTails(b, sector, mark, slot + 2, slot + 1, n); r.Success? ==> r.value[slot] == b[slot]
  {
    hide Splice, Apart, RestoreTails;
    HarmlessApart(sector, lo, slot + 4, slot + 1 + sector, n - 1, slot, slot + 1);
    ApartFirst(sector, slot, slot + 1, slot + 1, n);
    RestoreKeeps(b, sector, mark, slot + 2, slot + 1, n, slot, slot + 1);
    var r := RestoreTails(b, sector, mark, slot + 2, slot + 1, n);
    if r.Success? {
      assert r.value[slot] == r.value[slot..slot + 1][0] && b[slot] == b[slot..slot + 1][0];
    }
  }

  lemma OneByte(r: seq<Byte>, slot: nat, x: seq<Byte>, end: nat, mark: seq<Byte>)
    requires slot + 2 <= |r| && |x| == 2 && |mark| == 2 && end + 2 <= slot && r[slot] == x[0]
    ensures Splice(Splice(r, slot, x), end, mark) == Splice(r, end, mark)[slot + 1 := x[1]]
  {
  }

  // ----- Whole records

  /** Restoring keeps the sequence number even if the first tail lies a byte below the first slot. */
  lemma MarkStays(b: seq<Byte>, sector: nat, uso: nat, n: nat)
    requires uso + 2 + 2 * n <= |b| && sector >= 4
    requires n > 0 ==> Harmless(sector, uso, uso + 2, sector - 2, n)
    ensures var r := RestoreTails(b, sector, b[uso..uso + 2], uso + 2, sector - 2, n);
            r.Success? ==> r.value[uso..uso + 2] == b[uso..uso + 2]
  {
    hide Splice, Apart, RestoreTails;
    var mark, r := b[uso..uso + 2], RestoreTails(b, sector, b[uso..uso + 2], uso + 2, sector - 2, n);
    if n == 0 {
      NothingToDo(b, sector, mark, uso + 2, sector - 2);
    } else if r.Success? {
      HarmlessApart(sector, uso, uso + 4, sector - 2 + sector, n - 1, uso, uso + 2);
      if sector - 2 != uso + 1 {
        ApartFirst(sector, uso, uso + 2, sector - 2, n);
        RestoreKeeps(b, sector, mark, uso + 2, sector - 2, n, uso, uso + 2);
      } else {
        RestoredTail(b, sector, mark, uso + 2, uso + 1, n);
        RestoreUnfolds(b, sector, mark, uso + 2, uso + 1, n);
        var b1 := Splice(b, uso + 1, b[uso + 2..uso + 4]);
        RestoreKeeps(b1, sector, mark, uso + 4, uso + 1 + sector, n - 1, uso, uso + 2);
        LowByte(b, uso);
      }
    }
  }

  lemma LowByte(b: seq<Byte>, uso: nat)
    requires uso + 4 <= |b| && b[uso + 1..uso + 3] == b[uso..uso + 2]
    ensures Splice(b, uso + 1, b[uso + 2..uso + 4])[uso..uso + 2] == b[uso..uso + 2]
  {
    assert b[uso + 2] == b[uso + 1..uso + 3][1] == b[uso..uso + 2][1] == b[uso + 1];
  }

  /** Sectors of two or three bytes have no room for harmless tails on the array. */
  lemma {:induction false} TinySectors(sector: nat, uso: nat, usc: nat)
    requires ClearOfTails(sector, uso, usc) && usc > 1 && sector < 4
    ensures Apart(sector, uso, uso + 2 * usc, sector - 2, usc - 1)
  {
    var n := usc - 1;
    assert n > 1 ==> Apart(sector, 4, 8, sector - 2 + sector, n - 1);
    assert n > 2 ==> Apart(sector, 4, 8, sector - 2 + sector + sector, n - 2);
    ApartNone(sector, uso, uso + 2 * usc, sector - 2 + n * sector);
    assert n > 1 ==> Apart(sector, uso, uso + 2 * usc, sector - 2 + sector, n - 1);
  }

  /** Writing back a record that was just read changes no byte of the disk, wherever its tails are clear. */
  lemma ApplyThenReapply(buf: seq<Byte>, sector: nat)
    requires Clear(buf, sector) || Unprotected(buf)
    requires ApplyFixups(buf, sector).Success?
    ensures ReapplyFixups(ApplyFixups(buf, sector).value, sector) == Success(buf)
  {
    hide UsaOffset, UsaCount, Apart, Harmless, RestoreTails, SaveTails;
    var uso, usc := UsaOffset(buf), UsaCount(buf);
    if Clear(buf, sector) && usc > 1 {
      var r := ApplyFixups(buf, sector).value;
      RestoreKeeps(buf, sector, buf[uso..uso + 2], uso + 2, sector - 2, usc - 1, 4, 8);
      SameDescription(buf, r);
      if sector < 4 {
        TinySectors(sector, uso, usc);
        SlotsApart(sector, uso, usc);
        RestoreKeeps(buf, sector, buf[uso..uso + 2], uso + 2, sector - 2, usc - 1, uso, uso + 2);
        SaveUndoesRestore(buf, sector, buf[uso..uso + 2], uso + 2, sector - 2, usc - 1);
      } else {
        MarkStays(buf, sector, uso, usc - 1);
        SaveUndoesRestoreClear(buf, sector, buf[uso..uso + 2], uso, uso + 2, sector - 2, usc - 1);
      }
    }
  }

  // ----- Following one tail through both loops

  function At(end: nat, sector: nat, j: nat): nat {
    end + j * sector
  }

  lemma AtSum(end: nat, sector: nat, j: nat, k: nat)
    ensures At(At(end, sector, j), sector, k) == At(end, sector, j + k)
    ensures At(end, sector, 0) == end && At(end, sector, 1) == end + sector
  {
  }

  lemma AtOrder(end: nat, sector: nat, j: nat, k: nat)
    requires j < k
    ensures At(end, sector, j) + sector <= At(end, sector, k)
  {
    MulMonotone(j + 1, k, sector);
  }

  /** Tails that all end below a stretch are apart from it. */
  lemma {:induction false} ApartAbove(sector: nat, lo: nat, hi: nat, end: nat, n: nat)
    requires n > 0 ==> At(end, sector, n - 1) + 2 <= lo
    ensures Apart(sector, lo, hi, end, n)
    decreases n
  {
    if n > 0 {
      if n > 1 {
        AtSum(end, sector, 1, n - 2);
      }
      AtSum(end, sector, 0, 0);
      ApartAbove(sector, lo, hi, end + sector, n - 1);
      MulMonotone(0, n - 1, sector);
    }
  }

  lemma {:induction false} RestoreSplit(b: seq<Byte>, sector: nat, mark: seq<Byte>, slot: nat, end: nat, n: nat, j: nat)
    requires j <= n && slot + 2 * n <= |b| && |mark| == 2
    ensures RestoreTails(b, sector, mark, slot, end, n) ==
            match RestoreTails(b, sector, mark, slot, end, j)
            case Failure(e) => Failure(e)
            case Success(c) => RestoreTails(c, sector, mark, slot + 2 * j, At(end, sector, j), n - j)
    decreases j
  {
    hide Splice, At;
    if j == 0 {
      AtSum(end, sector, 0, 0);
    } else {
      AtSum(end, sector, 1, j - 1);
      if end + 2 <= |b| {
        RestoreSplit(Splice(b, end, b[slot..slot + 2]), sector, mark, slot + 2, end + sector, n - 1, j - 1);
      }
    }
  }

  lemma {:induction false} SaveSplit(b: seq<Byte>, sector: nat, mark: seq<Byte>, slot: nat, end: nat, n: nat, j: nat)
    requires j <= n && slot + 2 * n <= |b| && |mark| == 2
    ensures SaveTails(b, sector, mark, slot, end, n) ==
            match SaveTails(b, sector, mark, slot, end, j)
            case Failure(e) => Failure(e)
            case Success(c) => SaveTails(c, sector, mark, slot + 2 * j, At(end, sector, j), n - j)
    decreases j
  {
    hide Splice, At;
    if j == 0 {
      AtSum(end, sector, 0, 0);
    } else {
      AtSum(end, sector, 1, j - 1);
      if end + 2 <= |b| {
        var saved := Splice(b, slot, b[end..end + 2]);
        SaveSplit(Splice(saved, end, mark), sector, mark, slot + 2, end + sector, n - 1, j - 1);
      }
    }
  }

  /** The `j`-th tail ends up holding its slot, if no earlier tail touches that slot. */
  lemma {:induction false} RestoreTailIs(b: seq<Byte>, sector: nat, mark: seq<Byte>, slot: nat, end: nat, n: nat,
                                         j: nat)
    requires j < n && slot + 2 * n <= |b| && |mark| == 2 && sector >= 2
    requires Apart(sector, slot + 2 * j, slot + 2 * j + 2, end, j)
    requires RestoreTails(b, sector, mark, slot, end, n).Success?
    ensures var r, t := RestoreTails(b, sector, mark, slot, end, n).value, At(end, sector, j);
      t + 2 <= |b| && r[t..t + 2] == b[slot + 2 * j..slot + 2 * j + 2]
  {
    hide Splice, At, Apart, RestoreTails;
    RestoreSplit(b, sector, mark, slot, end, n, j);
    var c := RestoreTails(b, sector, mark, slot, end, j).value;
    RestoreKeeps(b, sector, mark, slot, end, j, slot + 2 * j, slot + 2 * j + 2);
    RestoredTail(c, sector, mark, slot + 2 * j, At(end, sector, j), n - j);
  }

  /** A byte of the `j`-th slot ends up holding the same byte of its tail, if no earlier slot covers that byte
      and no tail from the `j`-th on covers the slot's. */
  lemma SaveByteIs(b: seq<Byte>, sector: nat, mark: seq<Byte>, slot: nat, end: nat, n: nat, j: nat, e: nat)
    requires j < n && slot + 2 * n <= |b| && |mark| == 2 && sector >= 2 && e < 2
    requires var t := At(end, sector, j) + e; t < slot || slot + 2 * j <= t
    requires var (t, p) := (At(end, sector, j), slot + 2 * j + e); p < t || t + 2 <= p
    requires Apart(sector, slot + 2 * j + e, slot + 2 * j + e + 1, At(end, sector, j) + sector, n - j - 1)
    ensures var s := SaveTails(b, sector, mark, slot, end, n);
      s.Success? ==> At(end, sector, j) + 2 <= |b| && s.value[slot + 2 * j + e] == b[At(end, sector, j) + e]
  {
    hide Splice, At, Apart, SaveTails;
    var t, p := At(end, sector, j), slot + 2 * j + e;
    SaveSplit(b, sector, mark, slot, end, n, j);
    var s := SaveTails(b, sector, mark, slot, end, n);
    if s.Success? {
      var c := SaveTails(b, sector, mark, slot, end, j).value;
      SaveStep(c, sector, mark, slot + 2 * j, t, n - j);
      if j > 0 {
        AtOrder(end, sector, j - 1, j);
      }
      ApartAbove(sector, t + e, t + e + 1, end, j);
      SaveKeeps(b, sector, mark, slot, end, j, t + e, t + e + 1);
      var d := Splice(Splice(c, slot + 2 * j, c[t..t + 2]), t, mark);
      OneStep(c, slot + 2 * j, t, mark, e);
      SaveKeeps(d, sector, mark, slot + 2 * j + 2, t + sector, n - j - 1, p, p + 1);
      SameByte(s.value, d, p);
      SameByte(c, b, t + e);
    }
  }

  lemma SameByte(a: seq<Byte>, b: seq<Byte>, p: nat)
    requires p < |a| && p < |b| && a[p..p + 1] == b[p..p + 1]
    ensures a[p] == b[p]
  {
    assert a[p] == a[p..p + 1][0] && b[p] == b[p..p + 1][0];
  }

  lemma SamePair(a: seq<Byte>, i: nat, b: seq<Byte>, j: nat, e: nat)
    requires i + 2 <= |a| && j + 2 <= |b| && a[i..i + 2] == b[j..j + 2] && e < 2
    ensures a[i + e] == b[j + e]
  {
    assert a[i + e] == a[i..i + 2][e] && b[j + e] == b[j..j + 2][e];
  }

  lemma SaveStep(c: seq<Byte>, sector: nat, mark: seq<Byte>, slot: nat, end: nat, n: nat)
    requires n > 0 && slot + 2 * n <= |c| && |mark| == 2 && SaveTails(c, sector, mark, slot, end, n).Success?
    ensures end + 2 <= |c|
    ensures SaveTails(c, sector, mark, slot, end, n)
         == SaveTails(Splice(Splice(c, slot, c[end..end + 2]), end, mark), sector, mark, slot + 2, end + sector, n - 1)
  {
  }

  lemma OneStep(c: seq<Byte>, slot: nat, end: nat, mark: seq<Byte>, e: nat)
    requires slot + 2 <= |c| && end + 2 <= |c| && |mark| == 2 && e < 2
    ensures var d := Splice(Splice(c, slot, c[end..end + 2]), end, mark);
      && d[end + e] == mark[e]
      && (slot + e < end || end + 2 <= slot + e ==> d[slot + e] == c[end + e])
  {
  }

  /** A byte of the `j`-th tail ends up holding the mark, if no later slot covers it. */
  lemma {:induction false} SaveTailIs(b: seq<Byte>, sector: nat, mark: seq<Byte>, slot: nat, end: nat, n: nat, j: nat,
                                      e: nat)
    requires j < n && slot + 2 * n <= |b| && |mark| == 2 && sector >= 2 && e < 2
    requires var t := At(end, sector, j) + e; t < slot + 2 * j + 2 || slot + 2 * n <= t
    ensures var s := SaveTails(b, sector, mark, slot, end, n);
      s.Success? ==> At(end, sector, j) + 2 <= |b| && s.value[At(end, sector, j) + e] == mark[e]
  {
    hide Splice, At, Apart, SaveTails;
    var t := At(end, sector, j);
    SaveSplit(b, sector, mark, slot, end, n, j);
    var s := SaveTails(b, sector, mark, slot, end, n);
    if s.Success? {
      var c := SaveTails(b, sector, mark, slot, end, j).value;
      SaveStep(c, sector, mark, slot + 2 * j, t, n - j);
      var d := Splice(Splice(c, slot + 2 * j, c[t..t + 2]), t, mark);
      OneStep(c, slot + 2 * j, t, mark, e);
      ApartBelow(sector, t + e, t + e + 1, t + sector, n - j - 1);
      SaveKeeps(d, sector, mark, slot + 2 * j + 2, t + sector, n - j - 1, t + e, t + e + 1);
      SameByte(s.value, d, t + e);
    }
  }

  // ----- A record that loses bytes

  /** All tails hold the mark. */
  ghost predicate Marked(b: seq<Byte>, sector: nat, mark: seq<Byte>, end: nat, n: nat)
    decreases n
  {
    n == 0 || (end + 2 <= |b| && b[end..end + 2] == mark && Marked(b, sector, mark, end + sector, n - 1))
  }

  lemma {:induction false} MarkedAbove(b: seq<Byte>, sector: nat, mark: seq<Byte>, end: nat, n: nat, p: nat,
                                       x: seq<Byte>)
    requires Marked(b, sector, mark, end, n) && p + |x| <= end && p + |x| <= |b|
    ensures Marked(Splice(b, p, x), sector, mark, end, n)
    decreases n
  {
    hide Splice;
    if n > 0 {
      SpliceOutside(b, p, x, end, end + 2);
      MarkedAbove(b, sector, mark, end + sector, n - 1, p, x);
    }
  }

  lemma {:induction false} MarkedRestores(b: seq<Byte>, sector: nat, mark: seq<Byte>, slot: nat, end: nat, n: nat)
    requires Marked(b, sector, mark, end, n) && slot + 2 * n <= |b| && |mark| == 2 && sector >= 2
    ensures RestoreTails(b, sector, mark, slot, end, n).Success?
    decreases n
  {
    hide Splice;
    if n > 0 {
      MarkedAbove(b, sector, mark, end + sector, n - 1, end, b[slot..slot + 2]);
      MarkedRestores(Splice(b, end, b[slot..slot + 2]), sector, mark, slot + 2, end + sector, n - 1);
    }
  }

  /** The array described by `uso` and `usc`, the mark in it and on every tail, and `3` everywhere else. */
  function SampleByte(sector: nat, uso: nat, usc: nat, m: (Byte, Byte), k: nat): Byte
    requires sector > 0
  {
    if 4 <= k < 6 then LE(2, uso)[k - 4]
    else if 6 <= k < 8 then LE(2, usc)[k - 6]
    else if k == uso || k % sector == sector - 2 then m.0
    else if k == uso + 1 || k % sector == sector - 1 then m.1
    else 3
  }

  function Sample(size: nat, sector: nat, uso: nat, usc: nat, m: (Byte, Byte)): (s: seq<Byte>)
    requires sector > 0
    ensures |s| == size && forall k | 0 <= k < size :: s[k] == SampleByte(sector, uso, usc, m, k)
  {
    seq(size, k requires 0 <= k < size => SampleByte(sector, uso, usc, m, k))
  }

  lemma SampleDescription(size: nat, sector: nat, uso: U16, usc: U16, m: (Byte, Byte))
    requires sector > 0 && size >= 8
    ensures UsaOffset(Sample(size, sector, uso, usc, m)) == uso && UsaCount(Sample(size, sector, uso, usc, m)) == usc
  {
    hide LE, Value, Sample;
    var b := Sample(size, sector, uso, usc, m);
    assert b[4..6] == LE(2, uso) && b[6..8] == LE(2, usc);
    Widths();
    ValueFits(2, uso);
    ValueFits(2, usc);
  }

  /** What the sample holds on a tail, and that a stretch between two tails holds none of them. */
  lemma TailByte(sector: nat, j: nat)
    requires sector >= 2
    ensures At(sector - 2, sector, j) % sector == sector - 2 && (At(sector - 2, sector, j) + 1) % sector == sector - 1
  {
    DivModUnique(At(sector - 2, sector, j), sector, j, sector - 2);
    DivModUnique(At(sector - 2, sector, j) + 1, sector, j, sector - 1);
  }

  lemma OffTail(sector: nat, j: nat, k: nat)
    requires sector >= 2
    requires At(sector - 2, sector, j) + 2 <= k < At(sector - 2, sector, j) + sector ||
             (k < At(sector - 2, sector, j) && At(sector - 2, sector, j) < k + sector - 1)
    ensures k % sector != sector - 2 && k % sector != sector - 1
  {
    var t := At(sector - 2, sector, j);
    if t + 2 <= k {
      DivModUnique(k, sector, j + 1, k - t - 2);
    } else {
      assert t == j * sector + (sector - 2);
      DivModUnique(k, sector, j, k - j * sector);
    }
  }

  lemma {:induction false} SampleMarked(size: nat, sector: nat, uso: nat, usc: nat, m: (Byte, Byte), j: nat, n: nat)
    requires sector >= 10 && n > 0 ==> At(sector - 2, sector, j + n - 1) + 2 <= size
    requires sector >= 10 && MarkFits(sector, uso, m)
    ensures Marked(Sample(size, sector, uso, usc, m), sector, [m.0, m.1], At(sector - 2, sector, j), n)
    decreases n
  {
    hide At, MarkFits, Sample;
    if n > 0 {
      var t := At(sector - 2, sector, j);
      AtSum(sector - 2, sector, j, 1);
      AtSum(t, sector, 0, 0);
      if n > 1 {
        AtOrder(sector - 2, sector, j, j + n - 1);
      }
      SampleTail(size, sector, uso, usc, m, j);
      SampleMarked(size, sector, uso, usc, m, j + 1, n - 1);
    }
  }

  /** The sequence number has equal bytes, or no tail touches it. */
  ghost predicate MarkFits(sector: nat, uso: nat, m: (Byte, Byte))
    requires sector >= 2
  {
    m.0 == m.1 || forall k | uso <= k < uso + 2 :: k % sector < sector - 2
  }

  lemma SampleTail(size: nat, sector: nat, uso: nat, usc: nat, m: (Byte, Byte), j: nat)
    requires sector >= 10 && MarkFits(sector, uso, m) && At(sector - 2, sector, j) + 2 <= size
    ensures var t := At(sector - 2, sector, j); Sample(size, sector, uso, usc, m)[t..t + 2] == [m.0, m.1]
  {
    hide LE, At;
    var t, b := At(sector - 2, sector, j), Sample(size, sector, uso, usc, m);
    TailByte(sector, j);
    FirstTail(sector, j);
    assert b[t..t + 2] == [b[t], b[t + 1]];
  }

  lemma FirstTail(sector: nat, j: nat)
    requires sector >= 10
    ensures At(sector - 2, sector, j) >= 8
  {
  }

  /** One tail lies on the array in a harmful place, and no other tail lies near it. */
  ghost predicate Harmful(sector: nat, uso: nat, n: nat, j: nat) {
    && sector >= 10 && sector > 2 * n + 2 && uso >= 48 && j < n
    && var (t, q) := (At(sector - 2, sector, j), uso + 2 + 2 * j);
       uso < t + 2 && t < uso + 2 + 2 * n && t + 1 != q && t != q && !(t == q + 1 && j == n - 1)
  }

  lemma {:induction false} FindHarmful(sector: nat, uso: nat, slot: nat, end: nat, n: nat) returns (j: nat)
    requires !Harmless(sector, uso, slot, end, n)
    ensures j < n
    ensures var (t, q) := (At(end, sector, j), slot + 2 * j);
      uso < t + 2 && t < slot + 2 * n && t + 1 != q && t != q && !(t == q + 1 && j == n - 1)
    decreases n
  {
    hide At;
    AtSum(end, sector, 0, 0);
    if end + 2 <= uso || slot + 2 * n <= end || end + 1 == slot || end == slot || (end == slot + 1 && n == 1) {
      var i := FindHarmful(sector, uso, slot + 2, end + sector, n - 1);
      AtSum(end, sector, 1, i);
      j := i + 1;
    } else {
      j := 0;
    }
  }

  /** The other tails are clear of the whole array. */
  lemma OthersClear(sector: nat, uso: nat, n: nat, j: nat, k: nat)
    requires Harmful(sector, uso, n, j) && k < n && k != j
    ensures var t := At(sector - 2, sector, k);
      if k < j then t + 2 <= uso else uso + 2 + 2 * n <= t
  {
    hide At;
    if k < j {
      AtOrder(sector - 2, sector, k, j);
    } else {
      AtOrder(sector - 2, sector, j, k);
    }
  }

  lemma EarlierApart(sector: nat, uso: nat, n: nat, j: nat, k: nat, lo: nat, hi: nat)
    requires Harmful(sector, uso, n, j) && k <= j && uso <= lo
    ensures Apart(sector, lo, hi, sector - 2, k)
  {
    hide At;
    if k > 0 {
      OthersClear(sector, uso, n, j, k - 1);
    }
    ApartAbove(sector, lo, hi, sector - 2, k);
  }

  /** The mark of the sample: equal bytes where a tail covers the sequence number. */
  function MarkFor(sector: nat, uso: nat, j: nat): (Byte, Byte)
    requires sector >= 2
  {
    if At(sector - 2, sector, j) < uso + 2 then (1, 1) else (1, 2)
  }

  /** Bytes of the array off the harmful tail hold `3`. */
  lemma FreeByte(sector: nat, uso: nat, usc: nat, j: nat, k: nat)
    requires usc > 0 && Harmful(sector, uso, usc - 1, j) && uso + 2 <= k < uso + 2 * usc
    requires var t := At(sector - 2, sector, j); k < t || t + 2 <= k
    ensures SampleByte(sector, uso, usc, MarkFor(sector, uso, j), k) == 3
  {
    OffTail(sector, j, k);
  }

  /** The sample is read without complaint: what reading makes of it. */
  lemma {:induction false} SampleReads(size: nat, sector: nat, uso: U16, usc: U16, j: nat)
    requires usc > 0 && Harmful(sector, uso, usc - 1, j) && uso + 2 * usc <= size && (usc - 1) * sector <= size
    ensures var (b, m) := (Sample(size, sector, uso, usc, MarkFor(sector, uso, j)), MarkFor(sector, uso, j));
      && UsaOffset(b) == uso && UsaCount(b) == usc && b[uso..uso + 2] == [m.0, m.1]
      && var r := RestoreTails(b, sector, [m.0, m.1], uso + 2, sector - 2, usc - 1);
         && r.Success? && ApplyFixups(b, sector) == r
         && UsaOffset(r.value) == uso && UsaCount(r.value) == usc
  {
    hide At, Harmless, Apart, RestoreTails, UsaOffset, UsaCount, Sample, LE;
    var m := MarkFor(sector, uso, j);
    var b := Sample(size, sector, uso, usc, m);
    SampleDescription(size, sector, uso, usc, m);
    MarkOffTail(sector, uso, usc - 1, j);
    LastTail(sector, usc - 1);
    AtSum(sector - 2, sector, 0, 0);
    SampleMarked(size, sector, uso, usc, m, 0, usc - 1);
    MarkedRestores(b, sector, [m.0, m.1], uso + 2, sector - 2, usc - 1);
    MarkHeld(size, sector, uso, usc, j);
    ApartBelow(sector, 4, 8, sector - 2, usc - 1);
    RestoreKeeps(b, sector, [m.0, m.1], uso + 2, sector - 2, usc - 1, 4, 8);
    SameDescription(b, RestoreTails(b, sector, [m.0, m.1], uso + 2, sector - 2, usc - 1).value);
  }

  lemma LastTail(sector: nat, n: nat)
    requires n > 0 && sector >= 2
    ensures At(sector - 2, sector, n - 1) + 2 == n * sector
  {
  }

  lemma MarkOffTail(sector: nat, uso: nat, n: nat, j: nat)
    requires Harmful(sector, uso, n, j)
    ensures MarkFits(sector, uso, MarkFor(sector, uso, j))
  {
    hide At;
    if MarkFor(sector, uso, j).0 != MarkFor(sector, uso, j).1 {
      OffTail(sector, j, uso);
      OffTail(sector, j, uso + 1);
    }
  }

  lemma MarkHeld(size: nat, sector: nat, uso: nat, usc: nat, j: nat)
    requires usc > 0 && Harmful(sector, uso, usc - 1, j) && uso + 2 * usc <= size
    ensures var m := MarkFor(sector, uso, j); Sample(size, sector, uso, usc, m)[uso..uso + 2] == [m.0, m.1]
  {
    hide At, LE;
    var m := MarkFor(sector, uso, j);
    MarkOffTail(sector, uso, usc - 1, j);
    var b := Sample(size, sector, uso, usc, m);
    assert b[uso..uso + 2] == [b[uso], b[uso + 1]];
  }

  /** What the sample holds on the harmful tail. */
  lemma OnTail(size: nat, sector: nat, uso: nat, usc: nat, j: nat)
    requires usc > 0 && Harmful(sector, uso, usc - 1, j) && uso + 2 * usc <= size
    requires At(sector - 2, sector, j) + 2 <= size
    ensures var (t, m) := (At(sector - 2, sector, j), MarkFor(sector, uso, j));
      var b := Sample(size, sector, uso, usc, m); b[t] == m.0 && b[t + 1] == m.1
  {
    hide At, LE;
    TailByte(sector, j);
    FirstTail(sector, j);
  }

  /** A record read without complaint, with a harmful tail. */
  ghost predicate Restores(b: seq<Byte>, sector: nat, uso: nat, n: nat, j: nat) {
    && Harmful(sector, uso, n, j) && uso + 2 + 2 * n <= |b|
    && RestoreTails(b, sector, b[uso..uso + 2], uso + 2, sector - 2, n).Success?
  }

  ghost function Restored(b: seq<Byte>, sector: nat, uso: nat, n: nat, j: nat): (a: seq<Byte>)
    requires Restores(b, sector, uso, n, j)
    ensures |a| == |b|
  {
    RestoreTails(b, sector, b[uso..uso + 2], uso + 2, sector - 2, n).value
  }

  /** Writing the record back gives other bytes. */
  ghost predicate Loses(b: seq<Byte>, sector: nat, uso: nat, n: nat, j: nat)
    requires Restores(b, sector, uso, n, j)
  {
    var a := Restored(b, sector, uso, n, j);
    SaveTails(a, sector, a[uso..uso + 2], uso + 2, sector - 2, n) != Success(b)
  }

  /** A tail whose slot no earlier tail touches holds the slot's bytes afterwards. */
  lemma TakesSlot(b: seq<Byte>, sector: nat, uso: nat, n: nat, j: nat, l: nat)
    requires Restores(b, sector, uso, n, j) && l <= j
    ensures var (a, t) := (Restored(b, sector, uso, n, j), At(sector - 2, sector, l));
      t + 2 <= |b| && a[t] == b[uso + 2 + 2 * l] && a[t + 1] == b[uso + 2 + 2 * l + 1]
  {
    hide At, Apart, RestoreTails;
    EarlierApart(sector, uso, n, j, l, uso + 2 + 2 * l, uso + 2 + 2 * l + 2);
    RestoreTailIs(b, sector, b[uso..uso + 2], uso + 2, sector - 2, n, l);
    var a, t, q := Restored(b, sector, uso, n, j), At(sector - 2, sector, l), uso + 2 + 2 * l;
    SamePair(a, t, b, q, 0);
    SamePair(a, t, b, q, 1);
  }

  /** A tail on the sequence number: the new sequence number is not the old one. */
  lemma HarmsMark(b: seq<Byte>, sector: nat, uso: nat, n: nat, j: nat)
    requires Restores(b, sector, uso, n, j) && At(sector - 2, sector, j) < uso + 2
    requires var (t, q) := (At(sector - 2, sector, j), uso + 2 + 2 * j);
      && t + 2 <= |b| && b[t] == 1 && b[t + 1] == 1 && b[q] == 3 && b[q + 1] == 3
    ensures Loses(b, sector, uso, n, j)
  {
    hide At, SaveTails, RestoreTails;
    var a, t := Restored(b, sector, uso, n, j), At(sector - 2, sector, j);
    TakesSlot(b, sector, uso, n, j, j);
    SaveTailIs(a, sector, a[uso..uso + 2], uso + 2, sector - 2, n, j, 0);
    SaveTailIs(a, sector, a[uso..uso + 2], uso + 2, sector - 2, n, j, 1);
  }

  /** A tail on a later slot: that slot is given a byte of this one. */
  lemma HarmsLater(b: seq<Byte>, sector: nat, uso: nat, n: nat, j: nat, p: nat)
    requires Restores(b, sector, uso, n, j) && At(sector - 2, sector, j) <= p < At(sector - 2, sector, j) + 2
    requires uso + 2 + 2 * j + 2 <= p < uso + 2 + 2 * n
    requires b[p] != b[uso + 2 + 2 * j + (p - At(sector - 2, sector, j))]
    ensures Loses(b, sector, uso, n, j)
  {
    hide At, SaveTails, Restores;
    var l, e := (p - uso - 2) / 2, (p - uso - 2) % 2;
    assert p == uso + 2 + 2 * l + e && j < l < n;
    LaterTail(b, sector, uso, n, j, l, e);
    SavesLater(b, sector, uso, n, j, l, e);
  }

  lemma {:induction false} SavesLater(b: seq<Byte>, sector: nat, uso: nat, n: nat, j: nat, l: nat, e: nat)
    requires Restores(b, sector, uso, n, j) && j < l < n && e < 2
    ensures var a := Restored(b, sector, uso, n, j);
      var s := SaveTails(a, sector, a[uso..uso + 2], uso + 2, sector - 2, n);
      s.Success? ==> At(sector - 2, sector, l) + 2 <= |b| &&
                     s.value[uso + 2 + 2 * l + e] == a[At(sector - 2, sector, l) + e]
  {
    hide At, SaveTails, RestoreTails, Apart;
    var a, u, p := Restored(b, sector, uso, n, j), At(sector - 2, sector, l), uso + 2 + 2 * l + e;
    OthersClear(sector, uso, n, j, l);
    ApartBelow(sector, p, p + 1, u + sector, n - l - 1);
    SaveByteIs(a, sector, a[uso..uso + 2], uso + 2, sector - 2, n, l, e);
  }

  /** After the harmful tail took its slot's bytes, a later tail takes them from there. */
  lemma LaterTail(b: seq<Byte>, sector: nat, uso: nat, n: nat, j: nat, l: nat, e: nat)
    requires Restores(b, sector, uso, n, j) && j < l < n && e < 2
    requires At(sector - 2, sector, j) <= uso + 2 + 2 * l + e < At(sector - 2, sector, j) + 2
    ensures var (a, t, u) := (Restored(b, sector, uso, n, j), At(sector - 2, sector, j), At(sector - 2, sector, l));
      u + 2 <= |b| && a[u + e] == b[uso + 2 + 2 * j + (uso + 2 + 2 * l + e - t)]
  {
    hide At, Apart, RestoreTails;
    var mark, t, u := b[uso..uso + 2], At(sector - 2, sector, j), At(sector - 2, sector, l);
    var q, slot, p := uso + 2 + 2 * j, uso + 2 + 2 * l, uso + 2 + 2 * l + e;
    RestoreSplit(b, sector, mark, uso + 2, sector - 2, n, j + 1);
    var c := RestoreTails(b, sector, mark, uso + 2, sector - 2, j + 1).value;
    EarlierApart(sector, uso, n, j, j, q, q + 2);
    RestoreTailIs(b, sector, mark, uso + 2, sector - 2, j + 1, j);
    SamePair(c, t, b, q, p - t);
    AtSum(sector - 2, sector, j + 1, l - j - 1);
    NextTailClear(sector, uso, n, j, l);
    RestoreTailIs(c, sector, mark, uso + 2 + 2 * (j + 1), At(sector - 2, sector, j + 1), n - j - 1, l - j - 1);
    var a := Restored(b, sector, uso, n, j);
    SamePair(a, u, c, slot, e);
  }

  lemma NextTailClear(sector: nat, uso: nat, n: nat, j: nat, l: nat)
    requires Harmful(sector, uso, n, j) && j < l < n
    ensures Apart(sector, uso + 2 + 2 * l, uso + 2 + 2 * l + 2, At(sector - 2, sector, j + 1), l - j - 1)
  {
    hide At, Apart;
    OthersClear(sector, uso, n, j, j + 1);
    ApartBelow(sector, uso + 2 + 2 * l, uso + 2 + 2 * l + 2, At(sector - 2, sector, j + 1), l - j - 1);
  }

  /** A tail on an earlier slot: putting that slot back overwrites what this one should get back. */
  lemma HarmsEarlier(b: seq<Byte>, sector: nat, uso: nat, n: nat, j: nat)
    requires Restores(b, sector, uso, n, j) && uso + 2 <= At(sector - 2, sector, j) < uso + 2 + 2 * j
    requires b[uso + 2 + 2 * j] != b[At(sector - 2, sector, j)]
    ensures Loses(b, sector, uso, n, j)
  {
    hide At, SaveTails, RestoreTails, Apart;
    var t := At(sector - 2, sector, j);
    var l, e := (t - uso - 2) / 2, (t - uso - 2) % 2;
    assert t == uso + 2 + 2 * l + e && l < j;
    OthersClear(sector, uso, n, j, l);
    TakesSlot(b, sector, uso, n, j, l);
    EarlierSlot(Restored(b, sector, uso, n, j), sector, uso, n, j, l, e);
  }

  lemma {:induction false} EarlierSlot(a: seq<Byte>, sector: nat, uso: nat, n: nat, j: nat, l: nat, e: nat)
    requires Harmful(sector, uso, n, j) && l < j && e < 2 && uso + 2 + 2 * n <= |a|
    requires At(sector - 2, sector, j) == uso + 2 + 2 * l + e && uso + 2 + 2 * l + e + 2 <= uso + 2 + 2 * j
    requires At(sector - 2, sector, l) + 2 <= uso
    ensures var s := SaveTails(a, sector, a[uso..uso + 2], uso + 2, sector - 2, n);
      s.Success? ==> s.value[uso + 2 + 2 * j] == a[At(sector - 2, sector, l) + e]
  {
    hide At, Apart, SaveTails;
    var mark, t, u := a[uso..uso + 2], At(sector - 2, sector, j), At(sector - 2, sector, l);
    SaveSplit(a, sector, mark, uso + 2, sector - 2, n, l + 1);
    ApartNone(sector, t, t + 1, u + sector);
    SaveByteIs(a, sector, mark, uso + 2, sector - 2, l + 1, l, e);
    var s := SaveTails(a, sector, mark, uso + 2, sector - 2, n);
    if s.Success? {
      var c := SaveTails(a, sector, mark, uso + 2, sector - 2, l + 1).value;
      AtSum(sector - 2, sector, l + 1, j - l - 1);
      var q := uso + 2 + 2 * j;
      ApartBelow(sector, q, q + 1, t + sector, n - j - 1);
      SaveByteIs(c, sector, mark, uso + 2 + 2 * (l + 1), At(sector - 2, sector, l + 1), n - l - 1, j - l - 1, 0);
    }
  }

  // ----- Exactly when

  /** A readable record with this array in sectors of this size round-trips. */
  ghost predicate RoundTrips(buf: seq<Byte>, sector: nat) {
    ApplyFixups(buf, sector).Success? ==> ReapplyFixups(ApplyFixups(buf, sector).value, sector) == Success(buf)
  }

  ghost predicate Described(buf: seq<Byte>, size: nat, uso: nat, usc: nat) {
    |buf| == size >= 8 && UsaOffset(buf) == uso && UsaCount(buf) == usc
  }

  /** Where the array is shorter than a sector and all sectors lie in the record, every readable record with
      that array is written back unchanged if and only if no tail does harm. */
  lemma RoundTripsIff(size: nat, sector: nat, uso: U16, usc: U16)
    requires uso >= 48 && usc > 0 && uso + 2 * usc <= size && (usc - 1) * sector <= size
    requires sector >= 10 && sector > 2 * usc
    ensures (forall buf: seq<Byte> | Described(buf, size, uso, usc) :: RoundTrips(buf, sector))
       <==> ClearOfTails(sector, uso, usc)
  {
    hide RoundTrips;
    if ClearOfTails(sector, uso, usc) {
      forall buf: seq<Byte> | Described(buf, size, uso, usc)
        ensures RoundTrips(buf, sector)
      {
        ClearRoundTrips(buf, sector);
      }
    } else {
      var buf := LosesBytes(size, sector, uso, usc);
    }
  }

  lemma ClearRoundTrips(buf: seq<Byte>, sector: nat)
    requires Clear(buf, sector)
    ensures RoundTrips(buf, sector)
  {
    hide Clear, ApplyFixups, ReapplyFixups;
    if ApplyFixups(buf, sector).Success? {
      ApplyThenReapply(buf, sector);
    }
  }

  lemma LosesBytes(size: nat, sector: nat, uso: U16, usc: U16) returns (buf: seq<Byte>)
    requires uso >= 48 && usc > 0 && uso + 2 * usc <= size && (usc - 1) * sector <= size
    requires sector >= 10 && sector > 2 * usc && !ClearOfTails(sector, uso, usc)
    ensures Described(buf, size, uso, usc) && !RoundTrips(buf, sector)
  {
    hide At, Harmless, Apart, Sample, SaveTails, UsaOffset, UsaCount, RestoreTails, SampleByte, LE, Harmful, Loses;
    ApartBelow(sector, 4, 8, sector - 2, usc - 1);
    var j := FindHarmful(sector, uso, uso + 2, sector - 2, usc - 1);
    IsHarmful(sector, uso, usc - 1, j);
    buf := Sample(size, sector, uso, usc, MarkFor(sector, uso, j));
    SampleReads(size, sector, uso, usc, j);
    SampleLoses(buf, size, sector, uso, usc, j);
    LosesMeans(buf, sector, uso, usc - 1, j);
  }

  lemma IsHarmful(sector: nat, uso: nat, n: nat, j: nat)
    requires sector >= 10 && sector > 2 * n + 2 && uso >= 48 && j < n
    requires var (t, q) := (At(sector - 2, sector, j), uso + 2 + 2 * j);
      uso < t + 2 && t < uso + 2 + 2 * n && t + 1 != q && t != q && !(t == q + 1 && j == n - 1)
    ensures Harmful(sector, uso, n, j)
  {
  }

  lemma {:induction false} LosesMeans(b: seq<Byte>, sector: nat, uso: nat, n: nat, j: nat)
    requires Restores(b, sector, uso, n, j) && Loses(b, sector, uso, n, j)
    requires UsaOffset(b) == uso && UsaCount(b) == n + 1
    requires var r := RestoreTails(b, sector, b[uso..uso + 2], uso + 2, sector - 2, n);
      ApplyFixups(b, sector) == r && UsaOffset(r.value) == uso && UsaCount(r.value) == n + 1
    ensures !RoundTrips(b, sector)
  {
    hide UsaOffset, UsaCount, RestoreTails, SaveTails;
  }

  lemma SampleLoses(b: seq<Byte>, size: nat, sector: nat, uso: U16, usc: U16, j: nat)
    requires usc > 0 && Restores(b, sector, uso, usc - 1, j) && uso + 2 * usc <= size
    requires b == Sample(size, sector, uso, usc, MarkFor(sector, uso, j))
    ensures Loses(b, sector, uso, usc - 1, j)
  {
    hide At, RestoreTails, Sample, SampleByte, LE, Loses;
    var n, t, q := usc - 1, At(sector - 2, sector, j), uso + 2 + 2 * j;
    TakesSlot(b, sector, uso, n, j, j);
    OnTail(size, sector, uso, usc, j);
    if t < uso + 2 {
      FreeByte(sector, uso, usc, j, q);
      FreeByte(sector, uso, usc, j, q + 1);
      HarmsMark(b, sector, uso, n, j);
    } else if t == q + 1 {
      HarmsLater(b, sector, uso, n, j, t + 1);
    } else if t > q {
      FreeByte(sector, uso, usc, j, q);
      HarmsLater(b, sector, uso, n, j, t);
    } else {
      FreeByte(sector, uso, usc, j, q);
      HarmsEarlier(b, sector, uso, n, j);
    }
  }

  /** A geometry that mounts: 512-byte sectors, 1024-byte records. With the array at 510 the first tail is the
      sequence number itself, and reading a record and writing it back changes the disk; at 508 the tail is its
      own slot, and nothing is lost. */
  lemma OverlapLosesBytes()
    ensures exists buf: seq<Byte> :: Described(buf, 1024, 510, 2) && !RoundTrips(buf, 512)
    ensures forall buf: seq<Byte> | Described(buf, 1024, 508, 2) :: RoundTrips(buf, 512)
  {
    hide RoundTrips, Described;
    var buf := LosesBytes(1024, 512, 510, 2);
    RoundTripsIff(1024, 512, 508, 2);
  }
}
