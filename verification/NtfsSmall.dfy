/** A small device and records on it, for showing that what the theorems speak of does happen. */
module NtfsSmall {
  import opened Bytes
  import opened BlockStorage
  import opened NtfsFixups
  import opened NtfsAttributes
  import opened NtfsBuild
  import opened NtfsBuiltRecord
  import opened NtfsVolume
  import opened NtfsCreate
  import opened NtfsExtents
  import opened NtfsOutcome

  const RECORD: nat := 1024
  const SECTOR: nat := 512
  const CLUSTER: nat := 4096
  const RECORDS: nat := 32
  const DEVICE: nat := 65536

  // ----- Records on a small device

  /** File records from the start of the device on, in its first half; everything can be read and written. */
  ghost predicate Shaped(v: Volume) {
    && v.sector == SECTOR && v.clusterSize == CLUSTER && v.recordSize == RECORD && v.mftOffset == 0
    && v.totalSectors == DEVICE / SECTOR && |v.disk.bytes| == DEVICE
    && (forall off, len :: v.disk.readable(off, len) && v.disk.writable(off, len))
  }

  /** What follows the attributes in a record. */
  function After(n: nat): (s: seq<Byte>)
    requires n <= RECORD - 60
    ensures |s| == RECORD - 56 - n
  {
    LE(4, END_MARK) + Zeros(RECORD - 60 - n)
  }

  /** A record that holds some attributes. */
  function Plain(n: nat, attrs: seq<Byte>): (s: seq<Byte>)
    requires |attrs| <= RECORD - 60
    ensures |s| == RECORD
  {
    RecordHead(RECORD, n, 60 + |attrs|) + (attrs + After(|attrs|))
  }

  lemma UsedOf(recordSize: nat, num: nat, used: nat, rest: seq<Byte>)
    requires used < 0x1_0000_0000
    ensures ReadU32(RecordHead(recordSize, num, used) + rest, 24) == used
  {
    hide LE, Value, Pow256;
    Widths();
    ValueFits(4, used);
    assert (RecordHead(recordSize, num, used) + rest)[24..28] == LE(4, used);
  }

  /** What a record with some attributes looks like to the driver. */
  ghost predicate Holds(r: seq<Byte>, attrs: seq<Byte>)
    requires |attrs| <= RECORD - 60
  {
    && |r| == RECORD && r[0..4] == FILE_SIGNATURE && FirstOffset(r) == 56 && r[56..] == attrs + After(|attrs|)
    && UsaOffset(r) == 48 && UsaCount(r) == 3 && ReadU32(r, 24) == 60 + |attrs|
  }

  lemma PlainHolds(n: nat, attrs: seq<Byte>)
    requires |attrs| <= RECORD - 60
    ensures Holds(Plain(n, attrs), attrs)
  {
    hide RecordHead, LE, Value, UsaOffset, UsaCount, FirstOffset;
    HeadParts(RECORD, n, 60 + |attrs|, attrs + After(|attrs|));
    UsedOf(RECORD, n, 60 + |attrs|, attrs + After(|attrs|));
  }

  /** The volume with such a record in a slot. */
  function With(v: Volume, n: nat, attrs: seq<Byte>): Volume
    requires |attrs| <= RECORD - 60
  {
    PutRecord(v, n, Plain(n, attrs)).1
  }

  lemma HoldsSafe(r: seq<Byte>, attrs: seq<Byte>)
    requires |attrs| <= RECORD - 60 && Holds(r, attrs)
    ensures FixupsSafe(r, SECTOR) && Protected(r, SECTOR) && SlotsEnd(r) == 54 && Refixable(r, SECTOR)
    ensures ReapplyFixups(r, SECTOR).Success?
  {
    hide UsaOffset, UsaCount, Protected, SignatureClear, ReapplyFixups;
    BuiltFixups(r, SECTOR);
  }

  lemma SlotFits(v: Volume, n: nat)
    requires Shaped(v) && n < RECORDS
    ensures v.Slot(n) + RECORD <= DEVICE / 2 && v.Slot(n) == n * RECORD
  {
  }

  /** Putting a record on disk and reading it back. */
  lemma Placed(v: Volume, n: nat, attrs: seq<Byte>)
    requires Shaped(v) && n < RECORDS && |attrs| <= RECORD - 60
    ensures var w := With(v, n, attrs);
      && Shaped(w) && OnlySlot(v, w, n)
      && ReadRecord(w, n).Success? && Holds(ReadRecord(w, n).value, attrs)
  {
    hide Plain, ReapplyFixups, Holds, OnlySlot, SameOutside, ReadRecord, Volume.Slot, UsaOffset, UsaCount;
    var r := Plain(n, attrs);
    PlainHolds(n, attrs);
    HoldsMeans(r, attrs);
    HoldsSafe(r, attrs);
    ReapplyLength(r, SECTOR);
    SlotFits(v, n);
    assert PutRecord(v, n, r).0.Success?;
    PutThenRead(v, n, r);
    PutKeepsVolume(v, n, r);
    var w := With(v, n, attrs);
    OnlySlotGeometry(v, w, n);
    SameSize(v, w, n);
    HoldsToo(r, ReadRecord(w, n).value, attrs);
  }

  lemma HoldsMeans(r: seq<Byte>, attrs: seq<Byte>)
    requires |attrs| <= RECORD - 60 && Holds(r, attrs)
    ensures |r| == RECORD && r[0..4] == FILE_SIGNATURE && UsaOffset(r) == 48 && UsaCount(r) == 3
    ensures FirstOffset(r) == 56 && r[56..] == attrs + After(|attrs|) && ReadU32(r, 24) == 60 + |attrs|
  {
  }

  lemma SameSize(v: Volume, w: Volume, n: nat)
    requires OnlySlot(v, w, n)
    ensures |w.disk.bytes| == |v.disk.bytes|
  {
    hide Splice, Volume.Slot;
  }

  lemma HoldsToo(r: seq<Byte>, back: seq<Byte>, attrs: seq<Byte>)
    requires |attrs| <= RECORD - 60 && Holds(r, attrs) && SameOutside(r, back, 50, 54)
    ensures Holds(back, attrs)
  {
    hide UsaOffset, UsaCount, FirstOffset, Value;
    SameRest(r, back, 50, 54);
    assert back[56..] == back[54..][2..] && r[56..] == r[54..][2..];
    assert back[24..28] == r[24..28];
  }

  /** A slot of zeros is free. */
  lemma ZerosFree(v: Volume, n: nat)
    requires Shaped(v) && n < RECORDS
    requires v.disk.bytes[v.Slot(n)..v.Slot(n) + RECORD] == Zeros(RECORD)
    ensures v.Slot(n) + RECORD <= DEVICE && IsFree(v, n)
  {
    hide Volume.Slot;
    SlotFits(v, n);
    var z := v.disk.bytes[v.Slot(n)..v.Slot(n) + RECORD];
    assert z[0..4] == [0, 0, 0, 0];
  }

  /** A device with nothing on it but perhaps some bytes in the middle. */
  function Blank(middle: seq<Byte>): Volume
    requires |middle| <= DEVICE / 2
  {
    var bytes := Zeros(DEVICE / 2) + middle + Zeros(DEVICE / 2 - |middle|);
    Volume(Disk(bytes, SECTOR, DEVICE / SECTOR, (off, len) => true, (off, len) => true), 0, SECTOR, CLUSTER, RECORD,
           DEVICE / SECTOR)
  }

  lemma BlankSlots(middle: seq<Byte>, n: nat)
    requires |middle| <= DEVICE / 2 && n < RECORDS
    ensures var v := Blank(middle); Shaped(v) && v.Slot(n) + RECORD <= DEVICE && IsFree(v, n)
  {
    hide IsFree, Volume.Slot;
    var v := Blank(middle);
    SlotFits(v, n);
    var z := v.disk.bytes[v.Slot(n)..v.Slot(n) + RECORD];
    assert z == Zeros(RECORD);
    ZerosFree(v, n);
  }

  /** What lies in the middle is still there after a record was put into its slot. */
  lemma MiddleStays(v: Volume, n: nat, attrs: seq<Byte>, size: nat)
    requires Shaped(v) && n < RECORDS && |attrs| <= RECORD - 60 && size <= DEVICE / 2
    ensures var w := With(v, n, attrs);
      w.disk.Read(DEVICE / 2, size) == v.disk.Read(DEVICE / 2, size)
  {
    hide With, OnlySlot, Volume.Slot, Holds;
    Placed(v, n, attrs);
    SlotFits(v, n);
    OutsideSlot(v, With(v, n, attrs), n, DEVICE / 2, size);
  }
}
