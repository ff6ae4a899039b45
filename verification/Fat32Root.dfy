/** Looking up a file in the root directory. The search follows the directory's chain without bound. */
module Fat32Root {
  import opened Bytes
  import opened Fat32
  import opened Wrappers

  const ENTRY: nat := 32

  type Name83 = s: seq<Byte> | |s| == 11 witness seq(11, _ => 0x20)

  // ----- One directory entry

  predicate Ends(e: seq<Byte>)
    requires |e| == ENTRY
  {
    e[0] == 0
  }

  /** Deleted entries and long-name entries are passed over. */
  predicate Skipped(e: seq<Byte>)
    requires |e| == ENTRY
  {
    e[0] == 0xE5 || e[11] == 0x0F
  }

  predicate Matches(e: seq<Byte>, name: Name83)
    requires |e| == ENTRY
  {
    !Ends(e) && !Skipped(e) && e[..11] == name
  }

  /** The cluster an entry names: two 16-bit halves with disjoint bits. */
  function FirstCluster(e: seq<Byte>): U32
    requires |e| == ENTRY
  {
    0x1_0000 * ReadU16(e, 20) + ReadU16(e, 26)
  }

  /** What an entry settles: zero at the end of the directory, its cluster if it has the name. */
  function Verdict(e: seq<Byte>, name: Name83): Option<U32>
    requires |e| == ENTRY
  {
    if Ends(e) then Some(0) else if Matches(e, name) then Some(FirstCluster(e)) else None
  }

  /** What the first entry that settles the search says. */
  function Decision(data: seq<Byte>, name: Name83): Option<U32> {
    if |data| < ENTRY then None
    else
      var here := Verdict(data[..ENTRY], name);
      if here.Some? then here else Decision(data[ENTRY..], name)
  }

  lemma {:induction false} DecisionOfTwo(a: seq<Byte>, b: seq<Byte>, name: Name83)
    requires |a| % ENTRY == 0
    ensures Decision(a + b, name) == if Decision(a, name).Some? then Decision(a, name) else Decision(b, name)
  {
    hide Verdict;
    if a == [] {
      assert a + b == b;
    } else {
      assert (a + b)[..ENTRY] == a[..ENTRY] && (a + b)[ENTRY..] == a[ENTRY..] + b;
      DecisionOfTwo(a[ENTRY..], b, name);
    }
  }

  /** An entry that the search passes over. */
  ghost predicate Passed(e: seq<Byte>, name: Name83)
    requires |e| == 32
  {
    e[0] != 0 && (e[0] == 0xE5 || e[11] == 0x0F || e[0..11] != name)
  }

  /** What the bytes of the first entry that is not passed over decide: an entry that starts with zero ends the
      search; one with the name gives its cluster, whose high half is in bytes 20 and 21 and whose low half is in
      bytes 26 and 27, each lowest first. */
  lemma {:induction false} DecisionIs(data: seq<Byte>, name: Name83, k: nat)
    requires 32 * k <= |data| && forall j | 0 <= j < k :: Passed(data[32 * j..32 * j + 32], name)
    ensures |data| < 32 * k + 32 ==> Decision(data, name) == None
    ensures |data| >= 32 * k + 32 ==>
              var e := data[32 * k..32 * k + 32];
              && (e[0] == 0 ==> Decision(data, name) == Some(0))
              && (e[0] != 0 && !Passed(e, name) ==>
                    Decision(data, name) == Some((e[26] as int + 0x100 * e[27] as int
                                                  + 0x1_0000 * e[20] as int + 0x100_0000 * e[21] as int) as U32))
    decreases k
  {
    if k > 0 {
      var rest := data[32..];
      assert data[32 * 0..32 * 0 + 32] == data[..32];
      forall j | 0 <= j < k - 1 ensures Passed(rest[32 * j..32 * j + 32], name) {
        assert rest[32 * j..32 * j + 32] == data[32 * (j + 1)..32 * (j + 1) + 32];
      }
      DecisionIs(rest, name, k - 1);
      assert |data| >= 32 * k + 32 ==>
          data[32 * k..32 * k + 32] == rest[32 * (k - 1)..32 * (k - 1) + 32];
    } else if |data| >= 32 {
      assert data[0..32] == data[..32];
      U16Is(data[0..32], 20);
      U16Is(data[0..32], 26);
    }
  }

  // ----- The chain of the directory

  /** The sectors read for a cluster. The subtraction wraps: clusters 0 and 1 are not excluded. */
  function DirectoryLba(v: Volume, cluster: U32): nat {
    v.clusterLba + (cluster - 2) % 0x1_0000_0000 * v.sectorsPerCluster
  }

  function DirectoryData(v: Volume, cluster: U32): seq<Byte> {
    Sectors(v, DirectoryLba(v, cluster), v.sectorsPerCluster)
  }

  /** The first two clusters of the table are not refused; the subtraction leads far behind the disk. */
  lemma DirectoryLbaIs(v: Volume, cluster: U32, lba: nat)
    requires lba == v.clusterLba + (if cluster < 2 then 0xFFFF_FFFE + cluster else cluster - 2) * v.sectorsPerCluster
    ensures DirectoryLba(v, cluster) == lba
  {
  }

  /** The search has to go on behind this cluster. */
  ghost predicate Undecided(v: Volume, cluster: U32, name: Name83) {
    cluster < END_OF_CHAIN && Decision(DirectoryData(v, cluster), name).None?
  }

  /** The answer, if there is one within `n` turns of the loop. */
  function Search(v: Volume, cluster: U32, name: Name83, n: nat): Option<U32>
    decreases n
  {
    if n == 0 then None
    else if cluster >= END_OF_CHAIN then Some(0)
    else
      var here := Decision(DirectoryData(v, cluster), name);
      if here.Some? then here else Search(v, FatEntry(v, cluster), name, n - 1)
  }

  /** The first `n` clusters leave the search open. */
  ghost predicate Open(v: Volume, cluster: U32, name: Name83, n: nat) {
    forall k: nat | k < n :: Undecided(v, After(v, cluster, k), name)
  }

  lemma OpenStep(v: Volume, cluster: U32, name: Name83, n: nat)
    ensures Open(v, cluster, name, n + 1) <==>
            Undecided(v, cluster, name) && Open(v, FatEntry(v, cluster), name, n)
  {
    hide Undecided, FatEntry;
    var next := FatEntry(v, cluster);
    assert After(v, cluster, 0) == cluster;
    if Open(v, cluster, name, n + 1) {
      forall k: nat | k < n ensures Undecided(v, After(v, next, k), name) {
        assert After(v, cluster, k + 1) == After(v, next, k);
      }
    }
    if Undecided(v, cluster, name) && Open(v, next, name, n) {
      forall k: nat | k < n + 1 ensures Undecided(v, After(v, cluster, k), name) {
        assert k > 0 ==> After(v, cluster, k) == After(v, next, k - 1);
      }
    }
  }

  lemma {:induction false} SearchOpen(v: Volume, cluster: U32, name: Name83, n: nat)
    ensures Search(v, cluster, name, n).None? <==> Open(v, cluster, name, n)
    decreases n
  {
    hide Decision, DirectoryData, FatEntry, Open;
    if n > 0 {
      OpenStep(v, cluster, name, n - 1);
      SearchOpen(v, FatEntry(v, cluster), name, n - 1);
    } else {
      OpenNone(v, cluster, name);
    }
  }

  lemma OpenNone(v: Volume, cluster: U32, name: Name83)
    ensures Open(v, cluster, name, 0)
  {
  }

  // ----- When the search returns

  /** The chain comes back to a cluster without the search being settled on the way. */
  ghost predicate Loops(v: Volume, cluster: U32, name: Name83, i: nat, j: nat) {
    i < j && After(v, cluster, i) == After(v, cluster, j) && Open(v, cluster, name, j)
  }

  lemma {:induction false} AfterStep(v: Volume, cluster: U32, n: nat)
    ensures After(v, cluster, n + 1) == FatEntry(v, After(v, cluster, n))
    decreases n
  {
    hide FatEntry;
    if n > 0 {
      AfterStep(v, FatEntry(v, cluster), n - 1);
    }
  }

  lemma {:induction false} LoopRepeats(v: Volume, cluster: U32, name: Name83, i: nat, j: nat, k: nat)
    requires Loops(v, cluster, name, i, j)
    ensures k >= j ==> After(v, cluster, k) == After(v, cluster, k - (j - i))
    ensures Undecided(v, After(v, cluster, k), name)
    decreases k
  {
    hide Undecided, FatEntry, After;
    if k > j {
      LoopRepeats(v, cluster, name, i, j, k - 1);
      AfterStep(v, cluster, k - 1);
      AfterStep(v, cluster, k - 1 - (j - i));
    }
    if k >= j {
      LoopRepeats(v, cluster, name, i, j, k - (j - i));
    }
  }

  /** Among more numbers than there are values two are equal. */
  lemma {:induction false} Pigeonhole(s: seq<nat>, n: nat) returns (i: nat, j: nat)
    requires |s| > n > 0 && forall k | 0 <= k < |s| :: s[k] < n
    ensures i < j < |s| && s[i] == s[j]
    decreases n
  {
    if n == 1 {
      i, j := 0, 1;
    } else if p, q :| 0 <= p < q < |s| && s[p] == n - 1 && s[q] == n - 1 {
      i, j := p, q;
    } else if p :| 0 <= p < |s| && s[p] == n - 1 {
      i, j := Pigeonhole(s[..p] + s[p + 1..], n - 1);
      i, j := if i < p then i else i + 1, if j < p then j else j + 1;
    } else {
      i, j := Pigeonhole(s[1..], n - 1);
      i, j := i + 1, j + 1;
    }
  }

  /** As many turns as a table entry has values, and one more for the root cluster, settle the search or show a
      loop. */
  lemma OpenLoops(v: Volume, cluster: U32, name: Name83) returns (i: nat, j: nat)
    requires Search(v, cluster, name, ENTRY_MASK + 2).None?
    ensures Loops(v, cluster, name, i, j)
  {
    hide Undecided, FatEntry, After;
    var m := ENTRY_MASK + 1;
    var walk: seq<nat> := seq(m, k requires 0 <= k < m => After(v, cluster, k + 1));
    forall k | 0 <= k < |walk| ensures walk[k] < ENTRY_MASK {
      AfterStep(v, cluster, k);
      EntryBound(v, After(v, cluster, k));
    }
    i, j := Pigeonhole(walk, ENTRY_MASK);
    assert walk[i] == walk[j];
    i, j := i + 1, j + 1;
    SearchOpen(v, cluster, name, ENTRY_MASK + 2);
    assert After(v, cluster, i) == After(v, cluster, j) && j <= m;
  }

  lemma EntryBound(v: Volume, cluster: U32)
    ensures FatEntry(v, cluster) < ENTRY_MASK
  {
  }

  /** More turns do not change an answer. */
  lemma {:induction false} SearchSettled(v: Volume, cluster: U32, name: Name83, n: nat, m: nat)
    requires n <= m && Search(v, cluster, name, n).Some?
    ensures Search(v, cluster, name, m) == Search(v, cluster, name, n)
    decreases n
  {
    hide Decision, DirectoryData, FatEntry;
    if cluster < END_OF_CHAIN && Decision(DirectoryData(v, cluster), name).None? {
      SearchSettled(v, FatEntry(v, cluster), name, n - 1, m - 1);
    }
  }

  lemma {:induction false} LoopNeverReturns(v: Volume, cluster: U32, name: Name83, i: nat, j: nat, n: nat)
    requires Loops(v, cluster, name, i, j)
    ensures Search(v, cluster, name, n).None?
  {
    hide Loops, Search, Undecided, After;
    forall k: nat | k < n ensures Undecided(v, After(v, cluster, k), name) {
      LoopRepeats(v, cluster, name, i, j, k);
    }
    SearchOpen(v, cluster, name, n);
  }

  /** As many turns of the loop as ever matter. */
  const TURNS: nat := ENTRY_MASK + 2

  lemma {:induction false} TurnsSuffice(v: Volume, cluster: U32, name: Name83, n: nat)
    requires Search(v, cluster, name, n).Some?
    ensures Search(v, cluster, name, n) == Search(v, cluster, name, TURNS)
  {
    hide Search;
    if Search(v, cluster, name, TURNS).None? {
      var i, j := OpenLoops(v, cluster, name);
      LoopNeverReturns(v, cluster, name, i, j, n);
    } else if n <= TURNS {
      SearchSettled(v, cluster, name, n, TURNS);
    } else {
      SearchSettled(v, cluster, name, TURNS, n);
    }
  }

  /** The lookup returns, and then within 2^28 + 2 turns, exactly when the directory's chain does not come back to
      a cluster before the search is settled; on such a loop it never returns. */
  lemma {:induction false} FindRootReturnsIff(v: Volume, cluster: U32, name: Name83)
    ensures Search(v, cluster, name, TURNS).None? <==> exists i, j :: Loops(v, cluster, name, i, j)
    ensures forall n: nat :: Search(v, cluster, name, n).Some? ==>
              Search(v, cluster, name, n) == Search(v, cluster, name, TURNS)
  {
    hide Loops, Search;
    if Search(v, cluster, name, TURNS).None? {
      var i, j := OpenLoops(v, cluster, name);
      assert Loops(v, cluster, name, i, j);
    }
    if i, j :| Loops(v, cluster, name, i, j) {
      LoopNeverReturns(v, cluster, name, i, j, TURNS);
    }
    forall n: nat | Search(v, cluster, name, n).Some?
      ensures Search(v, cluster, name, n) == Search(v, cluster, name, TURNS)
    {
      TurnsSuffice(v, cluster, name, n);
    }
  }

  // ----- A directory whose chain ends

  lemma {:induction false} SearchChain(v: Volume, cs: seq<U32>, end: nat, name: Name83)
    requires Chains(v.disk, v.fatLba, cs, end) && end >= 0x0FFF_FFF8
    ensures var d := Decision(Concat(v, cs), name);
      Search(v, cs[0], name, |cs| + 1) == if d.Some? then d else Some(0)
    decreases |cs|
  {
    hide Decision, Links, FatEntry, Sectors;
    var data := ClusterData(v, cs[0]);
    assert DirectoryData(v, cs[0]) == data;
    ClusterEntries(v, cs[0]);
    DecisionOfTwo(data, Concat(v, cs[1..]), name);
    if |cs| == 1 {
      FatEntryLinks(v, cs[0], end);
      NothingDecided(Concat(v, cs[1..]), name);
      assert Search(v, FatEntry(v, cs[0]), name, 1) == Some(0);
    } else {
      FatEntryLinks(v, cs[0], cs[1]);
      SearchChain(v, cs[1..], end, name);
    }
  }

  lemma ClusterEntries(v: Volume, cluster: U32)
    requires IsData(cluster)
    ensures |ClusterData(v, cluster)| % ENTRY == 0
  {
    WholeEntries(v.sectorsPerCluster);
  }

  /** When the table's bytes chain the clusters of the root directory to an end, the lookup gives what the entries
      in them decide, read like a file, and zero if they leave it open. */
  lemma {:induction false} FindOnDisk(v: Volume, cs: seq<U32>, end: nat, name: Name83, max: nat)
    requires v.Mounted() && Chains(v.disk, v.fatLba, cs, end) && end >= 0x0FFF_FFF8
    requires v.rootCluster == cs[0] && max == |cs| * v.ClusterBytes()
    ensures var d := Decision(FileBytes(v, cs[0], max), name);
      Search(v, v.rootCluster, name, TURNS) == if d.Some? then d else Some(0)
  {
    hide Decision, Search, Links, Concat, FileBytes, Volume.ClusterBytes;
    SearchChain(v, cs, end, name);
    TurnsSuffice(v, cs[0], name, |cs| + 1);
    FileIsChain(v, cs, end, max);
    ConcatLength(v, cs);
  }

  // ----- A disk on which it never returns

  /** A sector of spaces in which the table entry of cluster 2 and the root cluster of a boot sector are 2. */
  const SPACES: Sector :=
    seq(SECTOR, i => if i == 8 || i == 44 then 2 else if 8 < i < 12 || 44 < i < 48 then 0 else 0x20)

  lemma {:induction false} SpacesUndecided(data: seq<Byte>, name: Name83)
    requires name[0] != 0x20 && |data| % ENTRY == 0
    requires forall k | 0 <= k < |data| / ENTRY :: data[k * ENTRY] == 0x20 && data[k * ENTRY + 11] != 0x0F
    ensures Decision(data, name).None?
  {
    if data != [] {
      var e, rest := data[..ENTRY], data[ENTRY..];
      assert data[0 * ENTRY] == 0x20 && e[0] == 0x20 && e[..11][0] != name[0];
      forall k | 0 <= k < |rest| / ENTRY
        ensures rest[k * ENTRY] == 0x20 && rest[k * ENTRY + 11] != 0x0F
      {
        assert rest[k * ENTRY] == data[(k + 1) * ENTRY] && rest[k * ENTRY + 11] == data[(k + 1) * ENTRY + 11];
      }
      SpacesUndecided(rest, name);
    }
  }

  lemma {:induction false} SectorsUndecided(v: Volume, lba: nat, n: nat, name: Name83)
    requires name[0] != 0x20 && forall at :: v.disk(at) == SPACES
    ensures Decision(Sectors(v, lba, n), name).None?
  {
    hide Decision;
    if n == 0 {
      NothingDecided(Sectors(v, lba, 0), name);
    } else {
      SectorsUndecided(v, lba, n - 1, name);
      SectorDecides(v, lba, n - 1, name);
      SpacesUndecided(SPACES, name);
    }
  }

  lemma SpacesFields()
    ensures ReadU16(SPACES, 11) != 0 && SPACES[13] != 0 && ReadU32(SPACES, 8) == 2 && ReadU32(SPACES, 44) == 2
  {
    hide Value;
    Widths();
    ValueFits(4, 2);
    assert LE(4, 2) == [2, 0, 0, 0];
    assert SPACES[8..12] == LE(4, 2) && SPACES[44..48] == LE(4, 2);
    TwoBytes(SPACES[11..13]);
  }

  lemma {:induction false} TwoBytes(s: seq<Byte>)
    requires |s| == 2 && s[1] != 0
    ensures Value(s) != 0
  {
  }

  /** A disk that mounts and on which no name that does not start with a space is ever looked up to the end: cluster
      2 is the root and its own successor. */
  lemma LoopingDisk(partition: nat, name: Name83, n: nat)
    requires name[0] != 0x20
    ensures var v := Mount(lba => SPACES, partition);
      && v.Some? && Loops(v.value, v.value.rootCluster, name, 0, 1)
      && Search(v.value, v.value.rootCluster, name, n).None?
  {
    hide Decision, Search, SPACES, Undecided, Loops, Sectors, FatEntry, Mount;
    SpacesMount(partition);
    var v := Mount(lba => SPACES, partition).value;
    SectorsUndecided(v, DirectoryLba(v, 2), v.sectorsPerCluster, name);
    LoopsOnItself(v, 2, name);
    LoopNeverReturns(v, 2, name, 0, 1, n);
  }

  lemma SpacesMount(partition: nat)
    ensures var v := Mount(lba => SPACES, partition);
      && v.Some? && v.value.rootCluster == 2 && FatEntry(v.value, 2) == 2
      && forall at :: v.value.disk(at) == SPACES
  {
    hide SPACES;
    SpacesFields();
  }

  lemma {:induction false} LoopsOnItself(v: Volume, cluster: U32, name: Name83)
    requires FatEntry(v, cluster) == cluster && cluster < END_OF_CHAIN
    requires Decision(DirectoryData(v, cluster), name).None?
    ensures Loops(v, cluster, name, 0, 1)
  {
    hide FatEntry, Decision, DirectoryData;
    assert After(v, cluster, 0) == cluster && After(v, cluster, 1) == cluster;
  }

  // ----- The program's loops

  method ScanSector(sector: Sector, name: Name83) returns (r: Option<U32>)
    ensures r == Decision(sector, name)
  {
    hide Verdict, Decision;
    NothingDecided(sector[..0], name);
    for i := 0 to SECTOR / ENTRY
      invariant Decision(sector[..ENTRY * i], name).None?
    {
      var e := sector[ENTRY * i..ENTRY * i + ENTRY];
      OneDecision(e, name);
      DecisionOfTwo(sector[..ENTRY * i], e, name);
      assert sector[..ENTRY * (i + 1)] == sector[..ENTRY * i] + e;
      DecisionOfTwo(sector[..ENTRY * (i + 1)], sector[ENTRY * (i + 1)..], name);
      assert sector == sector[..ENTRY * (i + 1)] + sector[ENTRY * (i + 1)..];
      var here := Verdict(e, name);
      if here.Some? {
        return here;
      }
    }
    assert sector[..SECTOR] == sector;
    return None;
  }

  lemma {:induction false} NothingDecided(data: seq<Byte>, name: Name83)
    requires data == []
    ensures Decision(data, name).None?
  {
  }

  lemma {:induction false} OneDecision(e: seq<Byte>, name: Name83)
    requires |e| == ENTRY
    ensures Decision(e, name) == Verdict(e, name)
  {
    hide Verdict;
    assert e[..ENTRY] == e && |e[ENTRY..]| == 0;
  }

  method ScanCluster(v: Volume, cluster: U32, name: Name83) returns (r: Option<U32>)
    ensures r == Decision(DirectoryData(v, cluster), name)
  {
    r := ScanSectors(v, DirectoryLba(v, cluster), name);
  }

  method ScanSectors(v: Volume, lba: nat, name: Name83) returns (r: Option<U32>)
    ensures r == Decision(Sectors(v, lba, v.sectorsPerCluster), name)
  {
    hide Decision, Sectors, SECTOR, ENTRY;
    SectorsStep(v, lba, 0);
    NothingDecided(Sectors(v, lba, 0), name);
    for s := 0 to v.sectorsPerCluster
      invariant Decision(Sectors(v, lba, s), name).None?
    {
      var here := ScanSector(v.disk(lba + s), name);
      SectorDecides(v, lba, s, name);
      if here.Some? {
        RestIgnored(v, lba, s + 1, v.sectorsPerCluster, name);
        return here;
      }
    }
    return None;
  }

  lemma SectorDecides(v: Volume, lba: nat, s: nat, name: Name83)
    requires Decision(Sectors(v, lba, s), name).None?
    ensures Decision(Sectors(v, lba, s + 1), name) == Decision(v.disk(lba + s), name)
  {
    hide Decision;
    SectorsStep(v, lba, s);
    WholeEntries(s);
    DecisionOfTwo(Sectors(v, lba, s), v.disk(lba + s), name);
  }

  lemma WholeEntries(n: nat)
    ensures n * SECTOR % ENTRY == 0
  {
    assert n * SECTOR == 16 * n * ENTRY;
  }

  lemma {:induction false} RestIgnored(v: Volume, lba: nat, s: nat, n: nat, name: Name83)
    requires s <= n && Decision(Sectors(v, lba, s), name).Some?
    ensures Decision(Sectors(v, lba, n), name) == Decision(Sectors(v, lba, s), name)
  {
    hide Decision, Sectors;
    SectorsGrow(v, lba, s, n);
    WholeEntries(s);
    DecisionOfPrefix(Sectors(v, lba, s), Sectors(v, lba, n), name);
  }

  lemma {:induction false} DecisionOfPrefix(a: seq<Byte>, b: seq<Byte>, name: Name83)
    requires a <= b && |a| % ENTRY == 0 && Decision(a, name).Some?
    ensures Decision(b, name) == Decision(a, name)
  {
    hide Decision;
    assert b == a + b[|a|..];
    DecisionOfTwo(a, b[|a|..], name);
  }

  /** At most `n` turns of the loop over the directory's chain. */
  method FindRoot(v: Volume, name: Name83, n: nat) returns (r: Option<U32>)
    ensures r == Search(v, v.rootCluster, name, n)
  {
    hide Decision, DirectoryData, FatEntry;
    var cluster: U32 := v.rootCluster;
    for turn := 0 to n
      invariant Search(v, v.rootCluster, name, n) == Search(v, cluster, name, n - turn)
    {
      if cluster >= END_OF_CHAIN {
        return Some(0);
      }
      var here := ScanCluster(v, cluster, name);
      if here.Some? {
        return here;
      }
      cluster := FatEntry(v, cluster);
    }
    return None;
  }
}
