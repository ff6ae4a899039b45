/** Names as partition tables and file records store them. */
module Text {
  import opened Bytes

  /** Characters other than NUL that ASCII has. */
  predicate IsAscii(s: string) {
    forall i | 0 <= i < |s| :: 0 as char < s[i] < 128 as char
  }

  /** UTF-16 units, least significant byte first. */
  function UnitBytes(units: seq<U16>): (s: seq<Byte>)
    ensures |s| == 2 * |units|
  {
    if units == [] then [] else LE(2, units[0]) + UnitBytes(units[1..])
  }

  lemma {:induction false} UnitBytesAt(units: seq<U16>, i: nat)
    requires i < |units|
    ensures UnitBytes(units)[2 * i..2 * i + 2] == LE(2, units[i])
  {
    var rest := UnitBytes(units[1..]);
    if i == 0 {
      assert (LE(2, units[0]) + rest)[0..2] == LE(2, units[0]);
    } else {
      UnitBytesAt(units[1..], i - 1);
      assert (LE(2, units[0]) + rest)[2 * i..2 * i + 2] == rest[2 * (i - 1)..2 * (i - 1) + 2];
    }
  }
}
