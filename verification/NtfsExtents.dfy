/** Where the contents of non-resident files are read from. */
module NtfsExtents {
  import opened Wrappers
  import opened Bytes
  import opened NtfsTypes
  import opened NtfsRuns
  import opened NtfsAttributes
  import opened NtfsVolume
  import opened NtfsCreate

  // ----- Runs that are not read from the record itself

  /** None of the extents is read from the slot of record `n`. */
  predicate ExtentsApart(v: Volume, n: nat, extents: Extents) {
    forall i | 0 <= i < |extents| ::
      var at := ReadOffset(v, extents[i].0);
      at + extents[i].1 * v.clusterSize <= v.Slot(n) || v.Slot(n) + v.recordSize <= at
  }

  predicate AllApart(v: Volume, n: nat, runs: seq<DataRun>) {
    forall i | 0 <= i < |runs| :: runs[i].NonResident? ==> ExtentsApart(v, n, runs[i].runs)
  }

  /** The file's contents are not read from its own record on disk. */
  predicate RunsApart(v: Volume, n: nat) {
    Stat(v, n).Success? ==> AllApart(v, n, Stat(v, n).value.dataRuns)
  }

  lemma {:induction false} ExtentsSame(v: Volume, w: Volume, n: nat, extents: Extents)
    requires OnlySlot(v, w, n) && ExtentsApart(v, n, extents)
    ensures ReadExtents(w, extents) == ReadExtents(v, extents)
  {
    hide Splice, Volume.Slot;
    if extents != [] {
      var at, size := ReadOffset(v, extents[0].0), extents[0].1 * v.clusterSize;
      OutsideSlot(v, w, n, at, size);
      assert forall i | 0 <= i < |extents[1..]| :: extents[1..][i] == extents[i + 1];
      ExtentsSame(v, w, n, extents[1..]);
    }
  }

  lemma OutsideSlot(v: Volume, w: Volume, n: nat, at: nat, size: nat)
    requires OnlySlot(v, w, n) && (at + size <= v.Slot(n) || v.Slot(n) + v.recordSize <= at)
    ensures w.disk.Read(at, size) == v.disk.Read(at, size) && w.clusterSize == v.clusterSize
  {
    hide Splice, Volume.Slot;
    var data: seq<Byte> :| PutThere(v, w, n, data);
    if at + size <= |v.disk.bytes| {
      SpliceOutside(v.disk.bytes, v.Slot(n), data, at, at + size);
    }
  }

  lemma {:induction false} ContentsApart(v: Volume, w: Volume, n: nat, runs: seq<DataRun>)
    requires OnlySlot(v, w, n) && AllApart(v, n, runs)
    ensures Contents(w, runs) == Contents(v, runs)
  {
    hide OnlySlot, ExtentsApart, ReadExtents;
    if runs != [] {
      if runs[0].NonResident? {
        ExtentsSame(v, w, n, runs[0].runs);
      }
      ContentsApart(v, w, n, runs[1..]);
    }
  }

  // ----- The size that the metadata give

  /** The clusters of extents, added up. */
  ghost function ClustersIn(extents: Extents): nat {
    if extents == [] then 0 else extents[0].1 + ClustersIn(extents[1..])
  }

  /** The bytes of a run: those of a value, or as many clusters as its extents have. */
  ghost function BytesIn(run: DataRun, clusterSize: nat): nat {
    match run
    case Resident(data) => |data|
    case NonResident(extents) => ClustersIn(extents) * clusterSize
  }

  ghost function BytesInAll(runs: seq<DataRun>, clusterSize: nat): nat {
    if runs == [] then 0 else BytesIn(runs[0], clusterSize) + BytesInAll(runs[1..], clusterSize)
  }

  lemma {:induction false} RunsSizeIs(extents: Extents, clusterSize: nat)
    ensures RunsSize(extents, clusterSize) == ClustersIn(extents) * clusterSize
  {
    if extents != [] {
      RunsSizeIs(extents[1..], clusterSize);
      Ends(extents[0].1, ClustersIn(extents[1..]), clusterSize);
    }
  }

  lemma {:induction false} ReadExtentsLength(v: Volume, extents: Extents)
    requires ReadExtents(v, extents).Success?
    ensures |ReadExtents(v, extents).value| == ClustersIn(extents) * v.clusterSize
  {
    if extents != [] {
      hide ReadExtents;
      var first := FirstExtent(v, extents);
      ReadExtentsLength(v, extents[1..]);
      Ends(extents[0].1, ClustersIn(extents[1..]), v.clusterSize);
    }
  }

  lemma {:induction false} FirstExtent(v: Volume, extents: Extents) returns (first: seq<Byte>)
    requires extents != [] && ReadExtents(v, extents).Success?
    ensures ReadExtents(v, extents[1..]).Success? && |first| == extents[0].1 * v.clusterSize
    ensures ReadExtents(v, extents).value == first + ReadExtents(v, extents[1..]).value
  {
    first := v.disk.Read(ReadOffset(v, extents[0].0), extents[0].1 * v.clusterSize).value;
  }

  lemma {:induction false} ContentsLength(v: Volume, runs: seq<DataRun>)
    requires Contents(v, runs).Success?
    ensures |Contents(v, runs).value| == BytesInAll(runs, v.clusterSize)
  {
    hide ReadExtents;
    if runs != [] {
      if runs[0].NonResident? {
        ReadExtentsLength(v, runs[0].runs);
      }
      ContentsLength(v, runs[1..]);
    }
  }

  /** The size in the metadata is that of the last data run alone. */
  ghost predicate SizeOfLast(st: NtfsStat, clusterSize: nat) {
    st.size == if st.dataRuns == [] then 0 else BytesIn(st.dataRuns[|st.dataRuns| - 1], clusterSize)
  }

  lemma AbsorbSize(st: NtfsStat, code: nat, attr: seq<Byte>, resident: bool, clusterSize: nat)
    requires SizeOfLast(st, clusterSize) && Absorb(st, code, attr, resident, clusterSize).Success?
    ensures SizeOfLast(Absorb(st, code, attr, resident, clusterSize).value, clusterSize)
  {
    hide ParseDataRuns, ResidentValue, ParseName, ParseStreamName;
    if code == DATA && !resident && ParseDataRuns(attr).Success? {
      RunsSizeIs(ParseDataRuns(attr).value, clusterSize);
    }
  }

  lemma {:induction false} StatSize(s: seq<Byte>, st: NtfsStat, clusterSize: nat)
    requires SizeOfLast(st, clusterSize) && StatFrom(s, st, clusterSize).Success?
    ensures SizeOfLast(StatFrom(s, st, clusterSize).value, clusterSize)
    decreases |s|
  {
    hide Absorb, SizeOfLast;
    var next := NextAttribute(s);
    if next.Attribute? {
      AbsorbSize(st, next.code, next.bytes, next.resident, clusterSize);
      StatSize(s[|next.bytes|..], Absorb(st, next.code, next.bytes, next.resident, clusterSize).value, clusterSize);
    }
  }

  lemma {:induction false} AllButLast(runs: seq<DataRun>, clusterSize: nat)
    requires runs != []
    ensures BytesInAll(runs, clusterSize)
         == BytesInAll(runs[..|runs| - 1], clusterSize) + BytesIn(runs[|runs| - 1], clusterSize)
  {
    if |runs| > 1 {
      AllButLast(runs[1..], clusterSize);
      assert runs[..|runs| - 1][1..] == runs[1..][..|runs| - 2];
    }
  }

  /** The size that the metadata of a file give is the number of bytes that reading it yields exactly when all its
      data runs but the last are empty. */
  lemma SizeIsReadIff(v: Volume, n: nat)
    requires ReadFileAll(v, n).Success?
    ensures Stat(v, n).Success?
    ensures var st := Stat(v, n).value;
      && |ReadFileAll(v, n).value| == BytesInAll(st.dataRuns, v.clusterSize)
      && (|ReadFileAll(v, n).value| == st.size
          <==> st.dataRuns == [] || BytesInAll(st.dataRuns[..|st.dataRuns| - 1], v.clusterSize) == 0)
  {
    hide ReadRecord, StatFrom, Contents, BytesIn, BytesInAll;
    var record, st := ReadRecord(v, n).value, Stat(v, n).value;
    assert SizeOfLast(NO_STAT, v.clusterSize);
    StatSize(From(record, FirstOffset(record)), NO_STAT, v.clusterSize);
    ContentsLength(v, st.dataRuns);
    if st.dataRuns == [] {
      NoRuns(v.clusterSize);
    } else {
      AllButLast(st.dataRuns, v.clusterSize);
    }
  }

  lemma {:induction false} NoRuns(clusterSize: nat)
    ensures BytesInAll([], clusterSize) == 0
  {
  }

  // ----- Extents are read from elsewhere

  /** The volume with other bytes on its device. */
  ghost function Over(v: Volume, b: seq<Byte>): Volume {
    v.(disk := v.disk.(bytes := b))
  }

  /** The extent is read as the bytes of its own clusters. */
  ghost predicate ReadsItself(v: Volume, cluster: nat, length: nat)
    requires (cluster + length) * v.clusterSize <= |v.disk.bytes|
  {
    Ends(cluster, length, v.clusterSize);
    var (at, size) := (cluster * v.clusterSize, length * v.clusterSize);
    ReadExtents(v, [(cluster, length)]) == Success(v.disk.bytes[at..at + size])
  }

  lemma Ends(cluster: nat, length: nat, p: nat)
    ensures cluster * p + length * p == (cluster + length) * p
  {
  }

  lemma ItselfIs(v: Volume, cluster: nat, length: nat, at: nat, size: nat)
    requires (cluster + length) * v.clusterSize <= |v.disk.bytes| < I64_LIMIT
    requires forall o, l :: v.disk.readable(o, l)
    requires at == cluster * v.clusterSize && size == length * v.clusterSize
    ensures at + size <= |v.disk.bytes|
    ensures ReadsItself(v, cluster, length)
       <==> v.disk.bytes[at / 512..at / 512 + size] == v.disk.bytes[at..at + size]
  {
    hide ReadExtents;
    Ends(cluster, length, v.clusterSize);
    OneExtent(v, cluster, length);
  }

  /** On a device that begins with the file system: the bytes of an extent's clusters are read, on every device of
      that size, exactly if it starts at offset 0 or is empty. Any other is read from a 512th of its offset. */
  lemma ExtentReadIff(v: Volume, cluster: nat, length: nat)
    requires (cluster + length) * v.clusterSize <= |v.disk.bytes| < I64_LIMIT
    requires forall o, l :: v.disk.readable(o, l)
    ensures (forall b: seq<Byte> | |b| == |v.disk.bytes| :: ReadsItself(Over(v, b), cluster, length))
       <==> cluster * v.clusterSize == 0 || length * v.clusterSize == 0
  {
    hide ReadsItself;
    var at, size := cluster * v.clusterSize, length * v.clusterSize;
    ReadIff(v, cluster, length, at, size);
  }

  lemma ReadIff(v: Volume, cluster: nat, length: nat, at: nat, size: nat)
    requires (cluster + length) * v.clusterSize <= |v.disk.bytes| < I64_LIMIT
    requires forall o, l :: v.disk.readable(o, l)
    requires at == cluster * v.clusterSize && size == length * v.clusterSize
    ensures (forall b: seq<Byte> | |b| == |v.disk.bytes| :: ReadsItself(Over(v, b), cluster, length))
       <==> at == 0 || size == 0
  {
    hide ReadsItself;
    ItselfIs(v, cluster, length, at, size);
    if at > 0 && size > 0 {
      var b := Differs(|v.disk.bytes|, at, size);
      ItselfIs(Over(v, b), cluster, length, at, size);
      assert !ReadsItself(Over(v, b), cluster, length);
    } else {
      forall b: seq<Byte> | |b| == |v.disk.bytes|
        ensures ReadsItself(Over(v, b), cluster, length)
      {
        ItselfIs(Over(v, b), cluster, length, at, size);
        SameStart(b, at, size);
      }
    }
  }

  lemma SameStart(b: seq<Byte>, at: nat, size: nat)
    requires at + size <= |b| && (at == 0 || size == 0)
    ensures b[at / 512..at / 512 + size] == b[at..at + size]
  {
  }

  lemma Differs(n: nat, at: nat, size: nat) returns (b: seq<Byte>)
    requires 0 < at && 0 < size && at + size <= n
    ensures |b| == n && b[at / 512..at / 512 + size] != b[at..at + size]
  {
    b := Zeros(n)[at / 512 := 1];
    assert b[at / 512..at / 512 + size][0] == 1 && b[at..at + size][0] == 0;
  }

  lemma {:induction false} OneExtent(v: Volume, cluster: nat, length: nat)
    requires (cluster + length) * v.clusterSize <= |v.disk.bytes| < I64_LIMIT
    requires forall o, l :: v.disk.readable(o, l)
    ensures var (at, size) := (cluster * v.clusterSize, length * v.clusterSize);
      && at / 512 + size <= |v.disk.bytes|
      && ReadExtents(v, [(cluster, length)]) == Success(v.disk.bytes[at / 512..at / 512 + size])
  {
    Ends(cluster, length, v.clusterSize);
    var at, size := cluster * v.clusterSize, length * v.clusterSize;
    var data := v.disk.bytes[at / 512..at / 512 + size];
    assert [(cluster, length)][1..] == [] && data + [] == data;
  }
}
