/** The boot loader's FAT32 reader: following a cluster chain, which may be cyclic or point anywhere. */
module Fat32 {
  import opened Bytes
  import opened Wrappers

  const SECTOR: nat := 512
  /** Entries from here on end a chain. */
  const END_OF_CHAIN: nat := 0x0FFF_FFF8
  const ENTRY_MASK: nat := 0x1000_0000

  type Sector = s: seq<Byte> | |s| == SECTOR witness seq(SECTOR, i => 0)

  /** What mounting computes. The disk answers for every sector number. */
  datatype Volume = Volume(disk: nat -> Sector, fatLba: nat, clusterLba: nat, sectorsPerCluster: nat,
                           rootCluster: U32) {
    predicate Mounted() {
      sectorsPerCluster > 0
    }

    function ClusterBytes(): nat {
      sectorsPerCluster * SECTOR
    }
  }

  // ----- Mounting

  function Mount(disk: nat -> Sector, partition: nat): (r: Option<Volume>)
    ensures r.Some? ==> r.value.Mounted()
  {
    var boot := disk(partition);
    if ReadU16(boot, 11) == 0 || boot[13] == 0 then None
    else
      var fat := partition + ReadU16(boot, 14);
      Some(Volume(disk, fat, fat + boot[16] * ReadU32(boot, 36), boot[13], ReadU32(boot, 44)))
  }

  /** The fields of a boot sector that mounting looks at. */
  datatype Geometry = Geometry(bytesPerSector: U16, sectorsPerCluster: Byte, reserved: U16, fats: Byte,
                               fatSize: U32, root: U32)

  ghost predicate Carries(boot: Sector, g: Geometry) {
    && boot[11..13] == LE(2, g.bytesPerSector) && boot[13] == g.sectorsPerCluster
    && boot[14..16] == LE(2, g.reserved) && boot[16] == g.fats
    && boot[36..40] == LE(4, g.fatSize) && boot[44..48] == LE(4, g.root)
  }

  /** A boot sector that carries a geometry mounts as that geometry, unless a field it divides by is zero. The
      number of bytes in a sector is otherwise ignored: 512 is taken throughout. */
  lemma MountReads(disk: nat -> Sector, partition: nat, g: Geometry)
    requires Carries(disk(partition), g)
    ensures Mount(disk, partition) ==
            if g.bytesPerSector == 0 || g.sectorsPerCluster == 0 then None
            else Some(Volume(disk, partition + g.reserved, partition + g.reserved + g.fats * g.fatSize,
                             g.sectorsPerCluster, g.root))
  {
    hide LE, Value;
    Widths();
    ValueFits(2, g.bytesPerSector);
    ValueFits(2, g.reserved);
    ValueFits(4, g.fatSize);
    ValueFits(4, g.root);
  }

  // ----- The chain

  /** The successor of a cluster: the low 28 bits of its entry. The offset is computed in 32 bits. */
  function FatEntry(v: Volume, cluster: U32): U32 {
    var offset := cluster * 4 % 0x1_0000_0000;
    var sector := v.disk(v.fatLba + offset / SECTOR);
    assert offset % SECTOR + 4 <= SECTOR by {
      AlignedOffset(cluster);
    }
    ReadU32(sector, offset % SECTOR) % ENTRY_MASK
  }

  lemma AlignedOffset(cluster: nat)
    ensures cluster * 4 % 0x1_0000_0000 % 512 <= 508
  {
  }

  predicate IsData(cluster: U32) {
    2 <= cluster < END_OF_CHAIN
  }

  function ClusterToLba(v: Volume, cluster: U32): nat
    requires IsData(cluster)
  {
    v.clusterLba + (cluster - 2) * v.sectorsPerCluster
  }

  /** On a mounted disk cluster 2 lies right behind the tables, every cluster right behind the one before it, so
      that no two overlap, and the table entry that is read for a cluster lies before all of them exactly when the
      tables have room for it. */
  lemma MountLayout(disk: nat -> Sector, partition: nat, c: U32, d: U32)
    requires Mount(disk, partition).Some? && IsData(c) && c < d && IsData(d)
    ensures var v := Mount(disk, partition).value;
      && partition <= v.fatLba <= v.clusterLba == ClusterToLba(v, 2)
      && ClusterToLba(v, c + 1) == ClusterToLba(v, c) + v.sectorsPerCluster
      && ClusterToLba(v, c) + v.sectorsPerCluster <= ClusterToLba(v, d)
      && (v.fatLba + c * 4 % 0x1_0000_0000 / SECTOR < v.clusterLba <==> c < (v.clusterLba - v.fatLba) * 128)
  {
    hide Mount, SECTOR;
    MountAreas(disk, partition);
    var v := Mount(disk, partition).value;
    MulMonotone(c - 1, d - 2, v.sectorsPerCluster);
    OneMore(c - 2, v.sectorsPerCluster);
    EntrySector(c, v.fatLba, v.clusterLba);
  }

  lemma MountAreas(disk: nat -> Sector, partition: nat)
    requires Mount(disk, partition).Some?
    ensures partition <= Mount(disk, partition).value.fatLba <= Mount(disk, partition).value.clusterLba
  {
  }

  lemma EntrySector(c: U32, fat: nat, end: nat)
    requires IsData(c)
    ensures fat + c * 4 % 0x1_0000_0000 / SECTOR < end <==> c < (end - fat) * 128
  {
    assert c * 4 % 0x1_0000_0000 / SECTOR == c / 128;
  }

  lemma OneMore(n: nat, p: nat)
    ensures (n + 1) * p == n * p + p && n * p >= 0
  {
  }

  /** The first `n` clusters of the chain, fewer if it ends before. */
  function Chain(v: Volume, cluster: U32, n: nat): (c: seq<U32>)
    ensures |c| <= n && forall i | 0 <= i < |c| :: IsData(c[i])
    decreases n
  {
    if n == 0 || !IsData(cluster) then [] else [cluster] + Chain(v, FatEntry(v, cluster), n - 1)
  }

  /** The first `n` sectors of a run of sectors. */
  function Sectors(v: Volume, lba: nat, n: nat): (s: seq<Byte>)
    ensures |s| == n * SECTOR
  {
    if n == 0 then [] else Sectors(v, lba, n - 1) + v.disk(lba + n - 1)
  }

  function ClusterData(v: Volume, cluster: U32): (s: seq<Byte>)
    requires IsData(cluster)
    ensures |s| == v.ClusterBytes()
  {
    Sectors(v, ClusterToLba(v, cluster), v.sectorsPerCluster)
  }

  /** The clusters of a chain put together. */
  function Concat(v: Volume, clusters: seq<U32>): seq<Byte>
    requires forall i | 0 <= i < |clusters| :: IsData(clusters[i])
  {
    if clusters == [] then [] else ClusterData(v, clusters[0]) + Concat(v, clusters[1..])
  }

  function Take(s: seq<Byte>, max: nat): (r: seq<Byte>)
    ensures |r| <= max && r <= s && (|r| == |s| || |r| == max)
  {
    if |s| <= max then s else s[..max]
  }

  /** The bytes of a chain up to its `n`-th cluster. */
  function ChainBytes(v: Volume, cluster: U32, n: nat): seq<Byte> {
    Concat(v, Chain(v, cluster, n))
  }

  // ----- Facts about chains

  lemma {:induction false} ConcatLength(v: Volume, clusters: seq<U32>)
    requires forall i | 0 <= i < |clusters| :: IsData(clusters[i])
    ensures |Concat(v, clusters)| == |clusters| * v.ClusterBytes()
  {
    if clusters != [] {
      ConcatLength(v, clusters[1..]);
      assert |clusters| * v.ClusterBytes() == v.ClusterBytes() + (|clusters| - 1) * v.ClusterBytes();
    }
  }

  lemma ChainStep(v: Volume, cluster: U32, n: nat)
    requires IsData(cluster) && n > 0
    ensures ChainBytes(v, cluster, n) == ClusterData(v, cluster) + ChainBytes(v, FatEntry(v, cluster), n - 1)
  {
  }

  lemma {:induction false} ChainStops(v: Volume, cluster: U32, n: nat, m: nat)
    requires n <= m && (n == 0 || !IsData(cluster))
    ensures ChainBytes(v, cluster, n) == [] && Chain(v, cluster, n) == []
    ensures !IsData(cluster) ==> ChainBytes(v, cluster, m) == [] && Chain(v, cluster, m) == []
  {
  }

  /** A longer look at a chain starts with a shorter one. */
  lemma {:induction false} ChainPrefix(v: Volume, cluster: U32, n: nat, m: nat)
    requires n <= m
    ensures ChainBytes(v, cluster, n) <= ChainBytes(v, cluster, m)
    ensures |Chain(v, cluster, n)| < n ==> ChainBytes(v, cluster, n) == ChainBytes(v, cluster, m)
    ensures |Chain(v, cluster, n)| == (if |Chain(v, cluster, m)| < n then |Chain(v, cluster, m)| else n)
    decreases n
  {
    hide FatEntry, ClusterData, ChainBytes;
    if n == 0 || !IsData(cluster) {
      ChainStops(v, cluster, n, m);
    }
    if n > 0 && IsData(cluster) {
      ChainStep(v, cluster, n);
      ChainStep(v, cluster, m);
      ChainPrefix(v, FatEntry(v, cluster), n - 1, m - 1);
    }
  }

  /** Looking at enough clusters to cover `max` bytes settles the first `max` bytes of the chain. */
  lemma TakeIsSettled(v: Volume, cluster: U32, n: nat, m: nat, max: nat)
    requires v.Mounted() && max <= n * v.ClusterBytes() && n <= m
    ensures Take(ChainBytes(v, cluster, n), max) == Take(ChainBytes(v, cluster, m), max)
  {
    ChainPrefix(v, cluster, n, m);
    ConcatLength(v, Chain(v, cluster, n));
    ConcatLength(v, Chain(v, cluster, m));
    if |Chain(v, cluster, n)| == n {
      assert ChainBytes(v, cluster, n) <= ChainBytes(v, cluster, m);
      assert |ChainBytes(v, cluster, n)| >= max;
      TakePrefix(ChainBytes(v, cluster, n), ChainBytes(v, cluster, m), max);
    }
  }

  lemma TakePrefix(s: seq<Byte>, t: seq<Byte>, max: nat)
    requires s <= t && max <= |s|
    ensures Take(s, max) == Take(t, max)
  {
  }

  /** What a read yields: the first `max` bytes of the chain. Looking at `max` clusters is always enough. */
  function FileBytes(v: Volume, cluster: U32, max: nat): seq<Byte> {
    Take(ChainBytes(v, cluster, max), max)
  }

  lemma EnoughClusters(v: Volume, max: nat)
    requires v.Mounted()
    ensures max <= max * v.ClusterBytes()
  {
  }

  /** The bytes read are the first `max` of the concatenated clusters, for every number of clusters that
      covers `max` bytes or the whole chain. */
  lemma {:induction false} FileBytesAre(v: Volume, cluster: U32, max: nat, n: nat)
    requires v.Mounted() && (max <= n * v.ClusterBytes() || |Chain(v, cluster, n)| < n)
    ensures FileBytes(v, cluster, max) == Take(ChainBytes(v, cluster, n), max)
  {
    EnoughClusters(v, max);
    var m := if n < max then max else n;
    TakeIsSettled(v, cluster, max, m, max);
    if max <= n * v.ClusterBytes() {
      TakeIsSettled(v, cluster, n, m, max);
    } else {
      ChainPrefix(v, cluster, n, m);
    }
  }

  /** The number of bytes: all of a chain that ends, if it fits, and otherwise `max`; a chain that never ends,
      such as a cycle, fills the buffer. */
  lemma {:induction false} FileLength(v: Volume, cluster: U32, max: nat, n: nat)
    requires v.Mounted()
    ensures |Chain(v, cluster, n)| < n ==>
              var size := |Chain(v, cluster, n)| * v.ClusterBytes();
              |FileBytes(v, cluster, max)| == if size < max then size else max
    ensures (forall k: nat :: |Chain(v, cluster, k)| == k) ==> |FileBytes(v, cluster, max)| == max
  {
    ConcatLength(v, Chain(v, cluster, n));
    ConcatLength(v, Chain(v, cluster, max));
    EnoughClusters(v, max);
    if |Chain(v, cluster, n)| < n {
      FileBytesAre(v, cluster, max, n);
    }
  }

  /** A chain that comes back to a cluster never ends. */
  lemma {:induction false} CycleNeverEnds(v: Volume, cluster: U32, period: nat, n: nat)
    requires period > 0 && |Chain(v, cluster, period)| == period && After(v, cluster, period) == cluster
    ensures |Chain(v, cluster, n)| == n
    decreases n
  {
    if n <= period {
      ChainPrefix(v, cluster, n, period);
    } else {
      CycleNeverEnds(v, cluster, period, n - period);
      ChainAfter(v, cluster, period, n - period);
    }
  }

  function After(v: Volume, cluster: U32, n: nat): U32
    decreases n
  {
    if n == 0 then cluster else After(v, FatEntry(v, cluster), n - 1)
  }

  lemma {:induction false} ChainAfter(v: Volume, cluster: U32, n: nat, m: nat)
    requires |Chain(v, cluster, n)| == n
    ensures Chain(v, cluster, n + m) == Chain(v, cluster, n) + Chain(v, After(v, cluster, n), m)
    decreases n
  {
    hide FatEntry;
    if n > 0 {
      ChainAfter(v, FatEntry(v, cluster), n - 1, m);
    }
  }

  /** Reading a cluster and then the rest of the chain. */
  lemma FileStep(v: Volume, cluster: U32, max: nat)
    requires v.Mounted() && IsData(cluster) && max > 0
    ensures var first := Take(ClusterData(v, cluster), max);
      |first| > 0 && FileBytes(v, cluster, max) == first + FileBytes(v, FatEntry(v, cluster), max - |first|)
  {
    hide ClusterData, FatEntry, Chain, ChainBytes;
    var data, next := ClusterData(v, cluster), FatEntry(v, cluster);
    ChainStep(v, cluster, max);
    TakeSplit(data, ChainBytes(v, next, max - 1), max);
    var left := max - |Take(data, max)|;
    EnoughClusters(v, left);
    TakeIsSettled(v, next, left, max - 1, left);
  }

  lemma TakeSplit(a: seq<Byte>, b: seq<Byte>, max: nat)
    ensures |Take(a, max)| <= max
    ensures Take(a + b, max) == Take(a, max) + Take(b, max - |Take(a, max)|)
  {
  }

  /** A chain that comes back to where it started fills the buffer, however large. */
  lemma {:induction false} CyclicFileFills(v: Volume, cluster: U32, period: nat, max: nat)
    requires v.Mounted() && period > 0
    requires |Chain(v, cluster, period)| == period && After(v, cluster, period) == cluster
    ensures |FileBytes(v, cluster, max)| == max
  {
    hide FileBytes, Chain, After;
    forall k: nat ensures |Chain(v, cluster, k)| == k {
      CycleNeverEnds(v, cluster, period, k);
    }
    FileLength(v, cluster, max, 0);
  }

  // ----- The file, from the bytes of the disk

  /** A byte of the disk by its address. */
  function ByteAt(disk: nat -> Sector, a: nat): Byte {
    disk(a / 512)[a % 512]
  }

  /** The entry of a cluster in the table that starts at sector `fat` holds `next`: the low 28 bits of the four
      bytes at `4 * c`, which is computed in 32 bits, the lowest first. */
  ghost predicate Links(disk: nat -> Sector, fat: nat, c: nat, next: nat) {
    var at := 512 * fat + 4 * c % 0x1_0000_0000;
    next == ByteAt(disk, at) + 0x100 * ByteAt(disk, at + 1) + 0x1_0000 * ByteAt(disk, at + 2)
            + 0x100_0000 * (ByteAt(disk, at + 3) % 16)
  }

  /** The table chains the clusters, and the last one leads to `end`. */
  ghost predicate Chains(disk: nat -> Sector, fat: nat, cs: seq<U32>, end: nat) {
    && cs != [] && (forall i | 0 <= i < |cs| :: 2 <= cs[i] < 0x0FFF_FFF8)
    && (forall i | 0 <= i < |cs| - 1 :: Links(disk, fat, cs[i], cs[i + 1]))
    && Links(disk, fat, cs[|cs| - 1], end)
  }

  lemma FatEntryLinks(v: Volume, c: U32, next: nat)
    ensures FatEntry(v, c) == next <==> Links(v.disk, v.fatLba, c, next)
    ensures Links(v.disk, v.fatLba, c, next) ==> next < 0x1000_0000
  {
    hide Value, ByteAt, ReadU32;
    var offset := 4 * c % 0x1_0000_0000;
    var sector, off := v.disk(v.fatLba + offset / 512), offset % 512;
    AlignedOffset(c);
    EntryBytes(v.disk, v.fatLba, offset);
    U32Is(sector, off);
    Low28(sector[off], sector[off + 1], sector[off + 2], sector[off + 3]);
  }

  /** The four bytes of a table entry lie in one sector. */
  lemma EntryBytes(disk: nat -> Sector, lba: nat, off: nat)
    requires off % 512 <= 508
    ensures var sector, at, rest := disk(lba + off / 512), 512 * lba + off, off % 512;
      && ByteAt(disk, at) == sector[rest] && ByteAt(disk, at + 1) == sector[rest + 1]
      && ByteAt(disk, at + 2) == sector[rest + 2] && ByteAt(disk, at + 3) == sector[rest + 3]
  {
    WithinSector(lba, off, 0);
    WithinSector(lba, off, 1);
    WithinSector(lba, off, 2);
    WithinSector(lba, off, 3);
  }

  lemma WithinSector(lba: nat, off: nat, k: nat)
    requires off % 512 + k < 512
    ensures (512 * lba + off + k) / 512 == lba + off / 512 && (512 * lba + off + k) % 512 == off % 512 + k
  {
  }

  lemma Low28(a: Byte, b: Byte, c: Byte, d: Byte)
    ensures (a + 0x100 * b + 0x1_0000 * c + 0x100_0000 * d) % 0x1000_0000
         == a + 0x100 * b + 0x1_0000 * c + 0x100_0000 * (d % 16)
  {
  }

  lemma {:induction false} ChainIs(v: Volume, cs: seq<U32>, end: nat)
    requires Chains(v.disk, v.fatLba, cs, end)
    ensures Chain(v, cs[0], |cs|) == cs
    ensures end < 0x1000_0000 && (!IsData(end) ==> Chain(v, cs[0], |cs| + 1) == cs)
    decreases |cs|
  {
    hide FatEntry, Links;
    if |cs| == 1 {
      FatEntryLinks(v, cs[0], end);
    } else {
      FatEntryLinks(v, cs[0], cs[1]);
      ChainIs(v, cs[1..], end);
      assert cs == [cs[0]] + cs[1..];
    }
  }

  lemma {:induction false} SectorsAt(v: Volume, lba: nat, n: nat, s: nat, b: nat)
    requires s < n && b < 512
    ensures s * 512 + b < n * 512 && Sectors(v, lba, n)[s * 512 + b] == v.disk(lba + s)[b]
  {
    if s < n - 1 {
      SectorsAt(v, lba, n - 1, s, b);
    }
  }

  lemma {:induction false} ConcatAt(v: Volume, cs: seq<U32>, i: nat, x: nat)
    requires forall k | 0 <= k < |cs| :: IsData(cs[k])
    requires i < |cs| && x < v.ClusterBytes()
    ensures i * v.ClusterBytes() + x < |Concat(v, cs)|
    ensures Concat(v, cs)[i * v.ClusterBytes() + x] == ClusterData(v, cs[i])[x]
    decreases i
  {
    hide ClusterData, Volume.ClusterBytes;
    ConcatLength(v, cs);
    ConcatLength(v, cs[1..]);
    if i > 0 {
      ConcatAt(v, cs[1..], i - 1, x);
      assert i * v.ClusterBytes() == v.ClusterBytes() + (i - 1) * v.ClusterBytes();
    }
  }

  /** A chain whose last entry ends it, or that covers `max` bytes, yields the first `max` bytes of its clusters. */
  lemma {:induction false} FileIsChain(v: Volume, cs: seq<U32>, end: nat, max: nat)
    requires v.Mounted() && Chains(v.disk, v.fatLba, cs, end)
    requires !(2 <= end < 0x0FFF_FFF8) || max <= |cs| * v.ClusterBytes()
    ensures FileBytes(v, cs[0], max) == Take(Concat(v, cs), max)
  {
    hide FatEntry, Links, Chain, Concat, Volume.ClusterBytes, FileBytes, Take;
    ChainIs(v, cs, end);
    if max <= |cs| * v.ClusterBytes() {
      FileBytesAre(v, cs[0], max, |cs|);
    } else {
      FileBytesAre(v, cs[0], max, |cs| + 1);
    }
  }

  /** A byte of a cluster, by its sector and its place in it. */
  lemma ClusterByte(v: Volume, c: U32, lba: nat, s: nat, b: nat)
    requires IsData(c) && s < v.sectorsPerCluster && b < 512 && lba == v.clusterLba + (c - 2) * v.sectorsPerCluster
    ensures s * 512 + b < v.ClusterBytes() && ClusterData(v, c)[s * 512 + b] == v.disk(lba + s)[b]
  {
    hide Sectors;
    SectorsAt(v, lba, v.sectorsPerCluster, s, b);
  }

  /** The file that starts at the first cluster of a chain on a mounted volume, from the bytes of the disk alone:
      its length, and its byte `b` of sector `s` of its `i`-th cluster. The chain is given by the table's bytes; it
      ends with its last entry, or covers all that is asked for. */
  lemma FileOnDisk(disk: nat -> Sector, partition: nat, g: Geometry, cs: seq<U32>, end: nat, max: nat,
                   i: nat, s: nat, b: nat, at: nat, lba: nat)
    requires Carries(disk(partition), g) && g.bytesPerSector > 0 && g.sectorsPerCluster > 0
    requires Chains(disk, partition + g.reserved, cs, end)
    requires !(2 <= end < 0x0FFF_FFF8) || max <= |cs| * (g.sectorsPerCluster * 512)
    requires i < |cs| && s < g.sectorsPerCluster && b < 512
    requires at == i * (g.sectorsPerCluster * 512) + s * 512 + b
    requires lba == partition + g.reserved + g.fats * g.fatSize + (cs[i] - 2) * g.sectorsPerCluster
    ensures Mount(disk, partition).Some?
    ensures var file, size := FileBytes(Mount(disk, partition).value, cs[0], max),
                              |cs| * (g.sectorsPerCluster * 512);
      && |file| == (if size < max then size else max)
      && (at < |file| ==> file[at] == disk(lba + s)[b])
  {
    hide Carries, Links, Concat, FileBytes, ClusterData, Mount;
    MountReads(disk, partition, g);
    var v := Mount(disk, partition).value;
    FileIsChain(v, cs, end, max);
    ConcatLength(v, cs);
    ClusterByte(v, cs[i], lba, s, b);
    ConcatAt(v, cs, i, s * 512 + b);
  }

  /** A file in the clusters 2, 3, .., k + 1 is what lies in the sectors right behind the tables. */
  lemma {:induction false} ContiguousFile(disk: nat -> Sector, partition: nat, g: Geometry, cs: seq<U32>, end: nat,
                                          max: nat, start: nat, n: nat)
    requires Carries(disk(partition), g) && g.bytesPerSector > 0 && g.sectorsPerCluster > 0
    requires Chains(disk, partition + g.reserved, cs, end) && !(2 <= end < 0x0FFF_FFF8)
    requires forall i | 0 <= i < |cs| :: cs[i] == 2 + i
    requires start == partition + g.reserved + g.fats * g.fatSize && n == |cs| * g.sectorsPerCluster
    ensures Mount(disk, partition).Some?
    ensures var v := Mount(disk, partition).value; FileBytes(v, 2, max) == Take(Sectors(v, start, n), max)
  {
    hide Carries, Links, Concat, FileBytes, ClusterData, Mount, Sectors;
    MountReads(disk, partition, g);
    var v := Mount(disk, partition).value;
    FileIsChain(v, cs, end, max);
    Contiguous(v, cs, 0, start, n);
  }

  /** Clusters that follow each other are one run of sectors. */
  lemma {:induction false} Contiguous(v: Volume, cs: seq<U32>, i: nat, lba: nat, n: nat)
    requires forall j | 0 <= j < |cs| :: IsData(cs[j]) && cs[j] == 2 + (i + j)
    requires lba == v.clusterLba + i * v.sectorsPerCluster && n == |cs| * v.sectorsPerCluster
    ensures Concat(v, cs) == Sectors(v, lba, n)
    decreases |cs|
  {
    hide Sectors;
    var p := v.sectorsPerCluster;
    SectorsStep(v, lba, 0);
    if cs != [] {
      OneMore(i, p);
      OneMore(|cs| - 1, p);
      assert forall j | 0 <= j < |cs| - 1 :: cs[1..][j] == cs[j + 1];
      Contiguous(v, cs[1..], i + 1, lba + p, n - p);
      SectorsJoin(v, lba, p, n - p);
      assert ClusterData(v, cs[0]) == Sectors(v, lba, p);
    }
  }

  lemma {:induction false} SectorsJoin(v: Volume, lba: nat, n: nat, m: nat)
    ensures Sectors(v, lba, n + m) == Sectors(v, lba, n) + Sectors(v, lba + n, m)
  {
    if m > 0 {
      SectorsJoin(v, lba, n, m - 1);
      Assoc(Sectors(v, lba, n), Sectors(v, lba + n, m - 1), v.disk(lba + n + m - 1));
    }
  }

  // ----- The reader

  class Reader {
    const volume: Volume

    constructor (volume: Volume)
      ensures this.volume == volume
    {
      this.volume := volume;
    }

    /** Copies the chain into `out`, stopping at its end or after `max` bytes. It returns for every content of
        the table. */
    method ReadFile(first: U32, out: array<Byte>, max: nat) returns (total: nat)
      requires volume.Mounted() && max <= out.Length
      modifies out
      ensures total == |FileBytes(volume, first, max)| <= max
      ensures out[..] == Splice(old(out[..]), 0, FileBytes(volume, first, max))
    {
      hide FatEntry, ClusterToLba, Sectors, FileBytes, Take;
      total := 0;
      var cluster := first;
      ghost var done: seq<Byte> := [];
      FileEnd(volume, cluster, 0);
      while IsData(cluster) && total < max
        invariant total == |done| <= max
        invariant FileBytes(volume, first, max) == done + FileBytes(volume, cluster, max - total)
        invariant out[..] == Splice(old(out[..]), 0, done)
        decreases max - total
      {
        ghost var data, next := Take(ClusterData(volume, cluster), max - total), FatEntry(volume, cluster);
        FileStep(volume, cluster, max - total);
        Assoc(done, data, FileBytes(volume, next, max - total - |data|));
        SpliceMore(old(out[..]), 0, done, data);
        total := ReadSectors(ClusterToLba(volume, cluster), out, max, total);
        done, cluster := done + data, FatEntry(volume, cluster);
      }
      FileEnd(volume, cluster, max - total);
      assert done + [] == done;
    }

    /** Reads the sectors of one cluster, as far as `max` bytes in all. */
    method ReadSectors(lba: nat, out: array<Byte>, max: nat, from: nat) returns (total: nat)
      requires from <= max <= out.Length
      modifies out
      ensures var data := Take(Sectors(volume, lba, volume.sectorsPerCluster), max - from);
        total == from + |data| && out[..] == Splice(old(out[..]), from, data)
    {
      hide Sectors, Take, Splice;
      total := from;
      var s := 0;
      SectorsStep(volume, lba, 0);
      NothingYet(out[..], from, max - from);
      ghost var all := max - from;
      while s < volume.sectorsPerCluster && total < max
        invariant s <= volume.sectorsPerCluster
        invariant total == from + |Take(Sectors(volume, lba, s), all)|
        invariant out[..] == Splice(old(out[..]), from, Take(Sectors(volume, lba, s), all))
      {
        ghost var sectors, sector := Sectors(volume, lba, s), volume.disk(lba + s);
        SectorsStep(volume, lba, s);
        TakeSplit(sectors, sector, all);
        SpliceMore(old(out[..]), from, Take(sectors, all), Take(sector, max - total));
        total := CopySector(volume.disk(lba + s), out, max, total);
        s := s + 1;
      }
      SectorsGrow(volume, lba, s, volume.sectorsPerCluster);
      TakeSettles(Sectors(volume, lba, s), Sectors(volume, lba, volume.sectorsPerCluster), all);
    }

    method CopySector(sector: Sector, out: array<Byte>, max: nat, from: nat) returns (total: nat)
      requires from < max <= out.Length
      modifies out
      ensures total == from + |Take(sector, max - from)|
      ensures out[..] == Splice(old(out[..]), from, Take(sector, max - from))
    {
      hide Splice;
      var left := max - from;
      var toCopy := if left < SECTOR then left else SECTOR;
      var b := 0;
      NothingYet(out[..], from, left);
      assert sector[..0] == [];
      while b < toCopy
        invariant b <= toCopy && out[..] == Splice(old(out[..]), from, sector[..b])
      {
        SpliceMore(old(out[..]), from, sector[..b], [sector[b]]);
        assert sector[..b] + [sector[b]] == sector[..b + 1];
        SpliceOne(out[..], from + b, sector[b]);
        out[from + b] := sector[b];
        b := b + 1;
      }
      assert Take(sector, left) == sector[..toCopy];
      total := from + toCopy;
    }
  }

  lemma SectorsStep(v: Volume, lba: nat, n: nat)
    ensures Sectors(v, lba, 0) == []
    ensures Sectors(v, lba, n + 1) == Sectors(v, lba, n) + v.disk(lba + n)
  {
  }

  lemma NothingYet(buf: seq<Byte>, at: nat, max: nat)
    requires at <= |buf|
    ensures Take([], max) == [] && Splice(buf, at, []) == buf
  {
  }

  lemma SpliceOne(buf: seq<Byte>, at: nat, x: Byte)
    requires at < |buf|
    ensures buf[at := x] == Splice(buf, at, [x])
  {
  }

  lemma FileEnd(v: Volume, cluster: U32, max: nat)
    requires v.Mounted()
    ensures !IsData(cluster) || max == 0 ==> FileBytes(v, cluster, max) == []
    ensures FileBytes(v, cluster, max) == [] + FileBytes(v, cluster, max)
  {
  }

  lemma {:induction false} SectorsGrow(v: Volume, lba: nat, n: nat, m: nat)
    requires n <= m
    ensures Sectors(v, lba, n) <= Sectors(v, lba, m)
  {
    if n < m {
      SectorsGrow(v, lba, n, m - 1);
    }
  }

  lemma TakeSettles(s: seq<Byte>, t: seq<Byte>, max: nat)
    requires s <= t && (s == t || |Take(s, max)| >= max)
    ensures Take(s, max) == Take(t, max)
  {
  }
}
