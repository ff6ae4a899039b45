/** Adding a name to a directory's external index: one block of entries outside the file record. */
module NtfsExternal {
  import opened Wrappers
  import opened Bytes
  import opened NtfsTypes
  import opened NtfsFixups
  import opened NtfsRuns
  import opened NtfsAttributes
  import opened NtfsInsert

  const INDX_SIGNATURE: seq<Byte> := [0x49, 0x4E, 0x44, 0x58]
  /** The distance of sector tails in an index block, whatever the sectors of the volume are. */
  const STRIDE: nat := 512

  // ----- Which block

  /** Offset and size of the block the program tries: the first extent of the index allocation. */
  function IndexBlock(record: seq<Byte>, partitionSize: nat, clusterSize: nat): Outcome<(nat, nat)> {
    var root :- FindAttribute(record, INDEX_ROOT);
    if root + 22 > |record| || root + ReadU16(record, root + 20) + 12 > |record| then Failure(CorruptedFilesystem)
    else
      var size := ReadU32(record, root + ReadU16(record, root + 20) + 8);
      var at :- FindAttribute(record, INDEX_ALLOCATION);
      if at + 48 > |record| then Failure(CorruptedFilesystem)
      else if record[at + 8] != 1 then Failure(NotSupported)
      else if ReadU64(record, at + 40) == 0 then Failure(NoSpace)
      else
        var runs :- ParseDataRuns(record[at..]);
        if runs == [] then Failure(NoSpace) else BlockAt(runs[0].0, size, partitionSize, clusterSize)
  }

  /** The block at a cluster, if the cluster is not too far. Products are checked, and so is the division. */
  function BlockAt(cluster: nat, size: nat, partitionSize: nat, clusterSize: nat): Outcome<(nat, nat)> {
    if partitionSize >= 0x1_0000_0000_0000_0000 || clusterSize == 0 then Failure(Panicked)
    else if cluster > partitionSize / clusterSize then Failure(CorruptedFilesystem)
    else Success((cluster * clusterSize, size))
  }

  /** The block is accepted exactly when its cluster starts no further than the partition is long; the length of the
      partition must fit 64 bits, and clusters must not be empty. */
  lemma BlockAtIff(cluster: nat, size: nat, partitionSize: nat, clusterSize: nat)
    ensures BlockAt(cluster, size, partitionSize, clusterSize) ==
            if partitionSize >= 0x1_0000_0000_0000_0000 || clusterSize == 0 then Failure(Panicked)
            else if cluster * clusterSize <= partitionSize then Success((cluster * clusterSize, size))
            else Failure(CorruptedFilesystem)
  {
    if clusterSize == 0 {
      return;
    }
    if cluster * clusterSize <= partitionSize {
      DivMonotone(cluster, partitionSize, clusterSize);
    } else if cluster <= partitionSize / clusterSize {
      MulMonotone(cluster, partitionSize / clusterSize, clusterSize);
    }
  }

  lemma DivMonotone(a: nat, b: nat, d: nat)
    requires d > 0 && a * d <= b
    ensures a <= b / d
  {
    if b / d < a {
      MulMonotone(b / d + 1, a, d);
    }
  }

  // ----- What is done to it

  /** The entry is put in front of the last sixteen bytes. The header is read in 16-bit fields. */
  function BlockInserted(b: seq<Byte>, e: seq<Byte>): (r: Outcome<seq<Byte>>)
    ensures r.Success? ==> |r.value| == |b|
  {
    if |b| < 30 then Failure(CorruptedFilesystem)
    else
      var end, total := 24 + ReadU16(b, 24) + ReadU16(b, 26), ReadU16(b, 26);
      if end > |b| then Failure(CorruptedFilesystem)
      else if total + |e| > ReadU16(b, 28) then Failure(NoSpace)
      else if end + |e| > |b| then Failure(Panicked)
      else
        var shifted := Splice(b, end - 16 + |e|, b[end - 16..end]);
        Success(Splice(Splice(shifted, end - 16, e), 26, LE(2, total + |e|)))
  }

  function Restored(b: seq<Byte>, uso: nat, usc: nat): (r: Outcome<seq<Byte>>)
    requires 0 < usc && uso + 2 * usc <= |b|
    ensures r.Success? ==> |r.value| == |b|
  {
    if usc == 1 then Success(b) else RestoreTails(b, STRIDE, b[uso..uso + 2], uso + 2, STRIDE - 2, usc - 1)
  }

  function Saved(b: seq<Byte>, mark: seq<Byte>, uso: nat, usc: nat): (r: Outcome<seq<Byte>>)
    requires 0 < usc && uso + 2 * usc <= |b| && |mark| == 2
    ensures r.Success? ==> |r.value| == |b|
  {
    if usc == 1 then Success(b) else SaveTails(b, STRIDE, mark, uso + 2, STRIDE - 2, usc - 1)
  }

  /** The block on disk with the entry added. */
  function BlockEdited(b: seq<Byte>, e: seq<Byte>): (r: Outcome<seq<Byte>>)
    ensures r.Success? ==> |r.value| == |b|
  {
    if |b| < 4 then Failure(Panicked)
    else if b[0..4] != INDX_SIGNATURE then Failure(CorruptedFilesystem)
    else if |b| < 8 then Failure(Panicked)
    else
      var uso, usc := UsaOffset(b), UsaCount(b);
      if uso < 24 || usc == 0 || uso + 2 * usc > |b| then Failure(CorruptedFilesystem)
      else
        var restored :- Restored(b, uso, usc);
        var inserted :- BlockInserted(restored, e);
        Saved(inserted, b[uso..uso + 2], uso, usc)
  }

  // ----- The program's procedures

  method LocateBlock(record: seq<Byte>, partitionSize: nat, clusterSize: nat) returns (r: Outcome<(nat, nat)>)
    ensures r == IndexBlock(record, partitionSize, clusterSize)
  {
    hide Value, FindAttribute, ParseDataRuns, BlockAt;
    var root := FindAttributeOffset(record, INDEX_ROOT);
    if root.Failure? {
      return root.PropagateFailure();
    }
    if root.value + 22 > |record| {
      return Failure(CorruptedFilesystem);
    }
    var value := root.value + ReadU16(record, root.value + 20);
    if value + 12 > |record| {
      return Failure(CorruptedFilesystem);
    }
    var size := ReadU32(record, value + 8);
    var at := FindAttributeOffset(record, INDEX_ALLOCATION);
    if at.Failure? {
      return at.PropagateFailure();
    }
    if at.value + 48 > |record| {
      return Failure(CorruptedFilesystem);
    }
    if record[at.value + 8] != 1 {
      return Failure(NotSupported);
    }
    if ReadU64(record, at.value + 40) == 0 {
      return Failure(NoSpace);
    }
    var runs := ParseRuns(record[at.value..]);
    if runs.Failure? {
      return runs.PropagateFailure();
    }
    if runs.value == [] {
      return Failure(NoSpace);
    }
    return BlockAt(runs.value[0].0, size, partitionSize, clusterSize);
  }

  method InsertInBlock(b: array<Byte>, child: nat, parent: nat, name: string) returns (r: Outcome<()>)
    modifies b
    ensures var s := BlockInserted(old(b[..]), EntryBytes(child, parent, Utf16(name)));
            if s.Success? then r == Success(()) && b[..] == s.value else r == Failure(s.error)
  {
    hide Splice, EntryBytes, Value;
    if b.Length < 30 {
      return Failure(CorruptedFilesystem);
    }
    var total, room := ReadU16(b[..], 26), ReadU16(b[..], 28);
    var end := 24 + ReadU16(b[..], 24) + total;
    if end > b.Length {
      return Failure(CorruptedFilesystem);
    }
    var units := Utf16(name);
    var length := EntrySize(units);
    if total + length > room {
      return Failure(NoSpace);
    }
    if end + length > b.Length {
      return Failure(Panicked);
    }
    CopyInto(b, end - 16 + length, b[end - 16..end]);
    var entry := BuildEntry(child, parent, units);
    CopyInto(b, end - 16, entry);
    CopyInto(b, 26, LE(2, total + length));
    return Success(());
  }

  /** The whole edit of a block in its buffer, between undoing and redoing its fixups. */
  method EditBlock(b: array<Byte>, child: nat, parent: nat, name: string) returns (r: Outcome<()>)
    modifies b
    ensures var s := BlockEdited(old(b[..]), EntryBytes(child, parent, Utf16(name)));
            if s.Success? then r == Success(()) && b[..] == s.value else r == Failure(s.error)
  {
    hide EntryBytes, Value, BlockInserted, RestoreTails, SaveTails;
    if b.Length < 4 {
      return Failure(Panicked);
    }
    if b[..][0..4] != INDX_SIGNATURE {
      return Failure(CorruptedFilesystem);
    }
    if b.Length < 8 {
      return Failure(Panicked);
    }
    var uso, usc := UsaOffset(b[..]), UsaCount(b[..]);
    if uso < 24 || usc == 0 || uso + 2 * usc > b.Length {
      return Failure(CorruptedFilesystem);
    }
    var mark := b[..][uso..uso + 2];
    r := RestoreLoop(b, STRIDE, uso, usc, mark);
    if r.Failure? {
      return;
    }
    r := InsertInBlock(b, child, parent, name);
    if r.Failure? {
      return;
    }
    r := SaveLoop(b, STRIDE, uso, usc, mark);
  }
}
