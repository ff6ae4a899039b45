/** The physical frame allocator: each call enumerates the usable frames again and takes the next one. */
module FrameAllocator {
  import opened Wrappers

  const PAGE: nat := 4096
  /** The first 32 MB are never handed out. */
  const ALLOC_START: nat := 0x200_0000

  datatype Kind = Usable | Reserved | AcpiReclaimable | AcpiNvs | BadMemory | Unknown

  datatype MemoryRegion = MemoryRegion(start: nat, end: nat, kind: Kind)

  // ----- The enumeration

  function FirstAddress(r: MemoryRegion): nat {
    if r.start > ALLOC_START then r.start else ALLOC_START
  }

  /** The addresses from `at`, a page apart, below `end`. */
  function StepBy(at: nat, end: nat): (s: seq<nat>)
    decreases end - at
  {
    if at >= end then [] else [at] + StepBy(at + PAGE, end)
  }

  /** The frame that contains an address, by its start. */
  function Containing(address: nat): nat {
    address / PAGE * PAGE
  }

  function FramesOf(r: MemoryRegion): seq<nat> {
    if r.kind != Usable then [] else StepBy(FirstAddress(r), r.end)
  }

  function Frames(addresses: seq<nat>): (s: seq<nat>)
    ensures |s| == |addresses| && forall i | 0 <= i < |s| :: s[i] == Containing(addresses[i])
  {
    seq(|addresses|, i requires 0 <= i < |addresses| => Containing(addresses[i]))
  }

  function Addresses(regions: seq<MemoryRegion>): seq<nat> {
    if regions == [] then [] else FramesOf(regions[0]) + Addresses(regions[1..])
  }

  function UsableFrames(regions: seq<MemoryRegion>): seq<nat> {
    Frames(Addresses(regions))
  }

  // ----- The allocator

  class BootInfoFrameAllocator {
    const regions: seq<MemoryRegion>
    var next: nat

    constructor (regions: seq<MemoryRegion>)
      ensures this.regions == regions && next == 0
    {
      this.regions := regions;
      next := 0;
    }

    /** The counter moves on even when there is no frame left. */
    method AllocateFrame() returns (frame: Option<nat>)
      modifies this
      ensures next == old(next) + 1
      ensures frame == Nth(UsableFrames(regions), old(next))
    {
      hide FramesOf, UsableFrames, Addresses;
      frame := None;
      var left, i := next, 0;
      assert Addresses(regions[..0]) == [] by {
        NoAddresses();
      }
      while i < |regions|
        invariant i <= |regions| && next == old(next) && frame.None?
        invariant left == next - |Addresses(regions[..i])|
      {
        AddressesUpTo(regions, i);
        ghost var before := left;
        frame, left := NthIn(regions[i], left);
        if frame.Some? {
          InRegion(regions, i, before);
          break;
        }
        i := i + 1;
      }
      if frame.None? {
        assert regions[..|regions|] == regions;
        FramesLength(regions);
      }
      next := next + 1;
    }
  }

  lemma NoAddresses()
    ensures Addresses([]) == []
  {
  }

  /** The `n`-th frame of one region, or how many are left to skip behind it. */
  method NthIn(r: MemoryRegion, n: nat) returns (frame: Option<nat>, left: nat)
    ensures n < |FramesOf(r)| ==> frame == Some(Containing(FramesOf(r)[n]))
    ensures n >= |FramesOf(r)| ==> frame == None && left == n - |FramesOf(r)|
  {
    frame, left := None, n;
    if r.kind == Usable {
      var at := FirstAddress(r);
      ghost var done := 0;
      while at < r.end && left > 0
        invariant left + done == n && done <= |FramesOf(r)| && StepBy(at, r.end) == FramesOf(r)[done..]
        decreases r.end - at
      {
        at, left, done := at + PAGE, left - 1, done + 1;
      }
      if at < r.end {
        frame := Some(Containing(at));
      }
    }
  }

  function Nth(s: seq<nat>, n: nat): Option<nat> {
    if n < |s| then Some(s[n]) else None
  }

  lemma {:induction false} AddressesSum(a: seq<MemoryRegion>, b: seq<MemoryRegion>)
    ensures Addresses(a + b) == Addresses(a) + Addresses(b)
  {
    if a == [] {
      assert a + b == b;
    } else {
      assert (a + b)[1..] == a[1..] + b;
      AddressesSum(a[1..], b);
    }
  }

  lemma AddressesUpTo(regions: seq<MemoryRegion>, i: nat)
    requires i < |regions|
    ensures Addresses(regions[..i + 1]) == Addresses(regions[..i]) + FramesOf(regions[i])
  {
    assert regions[..i + 1] == regions[..i] + [regions[i]];
    AddressesSum(regions[..i], [regions[i]]);
    assert Addresses([regions[i]]) == FramesOf(regions[i]) + [];
  }

  lemma InRegion(regions: seq<MemoryRegion>, i: nat, k: nat)
    requires i < |regions| && k < |FramesOf(regions[i])|
    ensures var n := |Addresses(regions[..i])| + k;
      Nth(UsableFrames(regions), n) == Some(Containing(FramesOf(regions[i])[k]))
  {
    hide FramesOf, Addresses, Containing;
    AddressesUpTo(regions, i);
    assert regions == regions[..i + 1] + regions[i + 1..];
    AddressesSum(regions[..i + 1], regions[i + 1..]);
    Middle(Addresses(regions[..i]), FramesOf(regions[i]), Addresses(regions[i + 1..]), k);
  }

  lemma Middle(a: seq<nat>, b: seq<nat>, c: seq<nat>, k: nat)
    requires k < |b|
    ensures (a + b + c)[|a| + k] == b[k]
  {
  }

  /** The answers of `n` calls in a row: the enumeration from where the allocator stood, then none for ever. */
  method AllocateMany(a: BootInfoFrameAllocator, n: nat) returns (got: seq<Option<nat>>)
    modifies a
    ensures a.next == old(a.next) + n && |got| == n
    ensures forall k | 0 <= k < n :: got[k] == Nth(UsableFrames(a.regions), old(a.next) + k)
    ensures forall k | 0 <= k < n :: got[k].Some? <==> old(a.next) + k < TotalPages(a.regions)
  {
    hide UsableFrames, TotalPages;
    FrameTotal(a.regions);
    got := [];
    while |got| < n
      invariant |got| <= n && a.next == old(a.next) + |got|
      invariant forall k | 0 <= k < |got| :: got[k] == Nth(UsableFrames(a.regions), old(a.next) + k)
    {
      var frame := a.AllocateFrame();
      got := got + [frame];
    }
  }

  // ----- Which frames a region gives

  /** The page numbers a region gives start here. */
  function FirstPage(r: MemoryRegion): nat {
    FirstAddress(r) / PAGE
  }

  /** How many frames a region gives. */
  function PageCount(r: MemoryRegion): nat {
    if r.kind != Usable || FirstAddress(r) >= r.end then 0 else (r.end - FirstAddress(r) + PAGE - 1) / PAGE
  }

  lemma {:induction false} StepByIs(at: nat, end: nat)
    ensures var s := StepBy(at, end);
      && |s| == (if at >= end then 0 else (end - at + PAGE - 1) / PAGE)
      && forall k | 0 <= k < |s| :: s[k] == at + k * PAGE && s[k] < end
    decreases end - at
  {
    if at < end {
      StepByIs(at + PAGE, end);
    }
  }

  lemma ContainingStep(a: nat, k: nat)
    ensures Containing(a + k * PAGE) == (a / PAGE + k) * PAGE
  {
  }

  lemma FramesOfAre(r: MemoryRegion)
    ensures |FramesOf(r)| == PageCount(r)
    ensures forall k | 0 <= k < PageCount(r) ::
      && FramesOf(r)[k] == FirstAddress(r) + k * PAGE && FramesOf(r)[k] < r.end
      && Containing(FramesOf(r)[k]) == (FirstPage(r) + k) * PAGE
  {
    StepByIs(FirstAddress(r), r.end);
    forall k | 0 <= k < PageCount(r)
      ensures Containing(FramesOf(r)[k]) == (FirstPage(r) + k) * PAGE
    {
      ContainingStep(FirstAddress(r), k);
    }
  }

  /** The region and the place in it that the `n`-th frame comes from. */
  lemma {:induction false} Locate(regions: seq<MemoryRegion>, n: nat) returns (i: nat, k: nat)
    requires n < |Addresses(regions)|
    ensures i < |regions| && k < PageCount(regions[i]) && n == |Addresses(regions[..i])| + k
    ensures regions[i].kind == Usable && Addresses(regions)[n] == FirstAddress(regions[i]) + k * PAGE
    ensures UsableFrames(regions)[n] == (FirstPage(regions[i]) + k) * PAGE
  {
    hide Containing, StepBy, PageCount, FirstPage;
    FramesOfAre(regions[0]);
    var m := |FramesOf(regions[0])|;
    if n < m {
      i, k := 0, n;
    } else {
      i, k := Locate(regions[1..], n - m);
      i := i + 1;
      assert regions[..i] == [regions[0]] + regions[1..][..i - 1];
      assert regions[..i][1..] == regions[1..][..i - 1];
      assert UsableFrames(regions)[n] == Containing(Addresses(regions)[n]);
      assert UsableFrames(regions[1..])[n - m] == Containing(Addresses(regions[1..])[n - m]);
    }
  }

  lemma {:induction false} AddressesGrow(regions: seq<MemoryRegion>, i: nat, j: nat)
    requires i <= j <= |regions|
    ensures |Addresses(regions[..i])| <= |Addresses(regions[..j])|
  {
    assert regions[..j] == regions[..i] + regions[i..j];
    AddressesSum(regions[..i], regions[i..j]);
  }

  // ----- No frame twice

  ghost predicate Distinct(s: seq<nat>) {
    forall n, m | 0 <= n < m < |s| :: s[n] != s[m]
  }

  /** The pages two regions give do not meet. */
  ghost predicate PagesApart(r: MemoryRegion, q: MemoryRegion) {
    || PageCount(r) == 0 || PageCount(q) == 0
    || FirstPage(r) + PageCount(r) <= FirstPage(q) || FirstPage(q) + PageCount(q) <= FirstPage(r)
  }

  lemma OverlapRepeats(regions: seq<MemoryRegion>, i: nat, j: nat)
    requires i < j < |regions| && !PagesApart(regions[i], regions[j])
    ensures !Distinct(UsableFrames(regions))
  {
    hide UsableFrames, Addresses, PageCount, FirstPage, FramesOf;
    var r, q := regions[i], regions[j];
    var p := if FirstPage(r) < FirstPage(q) then FirstPage(q) else FirstPage(r);
    FramesOfAre(r);
    FramesOfAre(q);
    InRegion(regions, i, p - FirstPage(r));
    InRegion(regions, j, p - FirstPage(q));
    AddressesUpTo(regions, i);
    AddressesGrow(regions, i + 1, j);
    assert UsableFrames(regions)[|Addresses(regions[..i])| + (p - FirstPage(r))]
        == UsableFrames(regions)[|Addresses(regions[..j])| + (p - FirstPage(q))];
  }

  lemma RepeatOverlaps(regions: seq<MemoryRegion>, n: nat, m: nat)
    requires n < m < |UsableFrames(regions)| && UsableFrames(regions)[n] == UsableFrames(regions)[m]
    ensures exists i, j :: 0 <= i < j < |regions| && !PagesApart(regions[i], regions[j])
  {
    hide Addresses, PageCount, FirstPage, UsableFrames;
    assert |UsableFrames(regions)| == |Addresses(regions)| by {
      FramesLength(regions);
    }
    var i, k := Locate(regions, n);
    var j, l := Locate(regions, m);
    assert FirstPage(regions[i]) + k == FirstPage(regions[j]) + l;
    assert i != j;
    assert !PagesApart(regions[i], regions[j]) && !PagesApart(regions[j], regions[i]);
    if j < i {
      assert 0 <= j < i < |regions|;
    }
  }

  lemma {:induction false} FramesLength(regions: seq<MemoryRegion>)
    ensures |UsableFrames(regions)| == |Addresses(regions)|
  {
  }

  /** Whatever the memory map, no frame is handed out twice exactly when the pages of no two usable regions
      meet. */
  lemma NoFrameTwiceIff(regions: seq<MemoryRegion>)
    ensures Distinct(UsableFrames(regions)) <==>
            forall i, j | 0 <= i < j < |regions| :: PagesApart(regions[i], regions[j])
  {
    hide UsableFrames, PagesApart;
    if !Distinct(UsableFrames(regions)) {
      var n, m :| 0 <= n < m < |UsableFrames(regions)| && UsableFrames(regions)[n] == UsableFrames(regions)[m];
      RepeatOverlaps(regions, n, m);
    }
    if i, j :| 0 <= i < j < |regions| && !PagesApart(regions[i], regions[j]) {
      OverlapRepeats(regions, i, j);
    }
  }

  ghost predicate DisjointUsable(regions: seq<MemoryRegion>) {
    forall i, j | 0 <= i < j < |regions| && regions[i].kind == Usable && regions[j].kind == Usable ::
      regions[i].end <= regions[j].start || regions[j].end <= regions[i].start
  }

  ghost predicate StartsAligned(regions: seq<MemoryRegion>) {
    forall i | 0 <= i < |regions| && regions[i].kind == Usable :: regions[i].start % PAGE == 0
  }

  /** Disjoint regions that start on a page boundary never give a frame twice. */
  lemma AlignedStartsSuffice(regions: seq<MemoryRegion>)
    requires DisjointUsable(regions) && StartsAligned(regions)
    ensures Distinct(UsableFrames(regions))
  {
    NoFrameTwiceIff(regions);
  }

  /** Disjoint regions are not enough: a page that two regions share is handed out for both. */
  lemma SharedPageIsHandedOutTwice()
    ensures var r := MemoryRegion(0x200_0000, 0x200_1800, Usable);
            var q := MemoryRegion(0x200_1800, 0x200_3000, Usable);
            DisjointUsable([r, q]) && !Distinct(UsableFrames([r, q]))
  {
    var r := MemoryRegion(0x200_0000, 0x200_1800, Usable);
    var q := MemoryRegion(0x200_1800, 0x200_3000, Usable);
    OverlapRepeats([r, q], 0, 1);
  }

  // ----- Which frames there are

  function TotalPages(regions: seq<MemoryRegion>): nat {
    if regions == [] then 0 else PageCount(regions[0]) + TotalPages(regions[1..])
  }

  /** The enumeration has as many frames as the regions have pages. */
  lemma {:induction false} FrameTotal(regions: seq<MemoryRegion>)
    ensures |UsableFrames(regions)| == TotalPages(regions)
  {
    if regions != [] {
      FramesOfAre(regions[0]);
      FrameTotal(regions[1..]);
    }
  }

  /** A page is in the enumeration exactly when some usable region holds, of that page, the address that lies as
      far into its page as the region's first address does. */
  ghost predicate Gives(r: MemoryRegion, p: nat) {
    var first := if r.start > 0x200_0000 then r.start else 0x200_0000;
    r.kind == Usable && first <= p * 4096 + first % 4096 < r.end
  }

  lemma GivesIff(r: MemoryRegion, p: nat)
    ensures Gives(r, p) <==> FirstPage(r) <= p < FirstPage(r) + PageCount(r)
  {
    if Gives(r, p) {
      assert p * PAGE + FirstAddress(r) % PAGE - FirstAddress(r) == (p - FirstPage(r)) * PAGE;
    }
  }

  /** Whatever the memory map: everything handed out is the start of a page at or above 32 MB, and which pages
      are handed out. */
  lemma HandedOutIff(regions: seq<MemoryRegion>, p: nat)
    ensures forall f | f in UsableFrames(regions) :: f % 4096 == 0 && f >= 0x200_0000
    ensures p * 4096 in UsableFrames(regions) <==> exists i :: 0 <= i < |regions| && Gives(regions[i], p)
  {
    hide UsableFrames, Addresses, PageCount, FirstPage, FramesOf, Gives;
    FramesLength(regions);
    forall f | f in UsableFrames(regions)
      ensures f % PAGE == 0 && f >= ALLOC_START
      ensures exists i :: 0 <= i < |regions| && Gives(regions[i], f / PAGE)
    {
      var n :| 0 <= n < |UsableFrames(regions)| && f == UsableFrames(regions)[n];
      var i, k := Locate(regions, n);
      GivesIff(regions[i], FirstPage(regions[i]) + k);
      StartsHigh(regions[i]);
    }
    if i :| 0 <= i < |regions| && Gives(regions[i], p) {
      var k := p - FirstPage(regions[i]);
      GivesIff(regions[i], p);
      FramesOfAre(regions[i]);
      InRegion(regions, i, k);
    }
  }

  /** The order: the frames of a region follow those of the regions in front of it, and ascend page by page from
      the one that holds the first address at or above 32 MB. */
  lemma FrameOrder(regions: seq<MemoryRegion>, i: nat, k: nat)
    requires i < |regions|
    ensures var r := regions[i];
      var first := if r.start > 0x200_0000 then r.start else 0x200_0000;
      var n := |UsableFrames(regions[..i])|;
      && (k < |UsableFrames(regions[..i + 1])| - n <==> r.kind == Usable && first + k * 4096 < r.end)
      && (r.kind == Usable && first + k * 4096 < r.end ==>
            Nth(UsableFrames(regions), n + k) == Some((first / 4096 + k) * 4096))
  {
    hide Addresses, Containing, FramesOf, UsableFrames;
    FramesLength(regions[..i]);
    FramesLength(regions[..i + 1]);
    AddressesUpTo(regions, i);
    FramesOfAre(regions[i]);
    PagesBelow(regions[i], k);
    if k < PageCount(regions[i]) {
      InRegion(regions, i, k);
    }
  }

  lemma PagesBelow(r: MemoryRegion, k: nat)
    ensures k < PageCount(r) <==> r.kind == Usable && FirstAddress(r) + k * PAGE < r.end
  {
  }

  lemma StartsHigh(r: MemoryRegion)
    ensures FirstPage(r) * PAGE >= ALLOC_START
  {
  }

  ghost predicate InUsable(regions: seq<MemoryRegion>, address: nat) {
    exists i :: 0 <= i < |regions| && regions[i].kind == Usable && regions[i].start <= address < regions[i].end
  }

  /** Every frame handed out starts in usable memory exactly when the first frame of every region does: only the
      first one can start before its region, and it does when the region starts above 32 MB inside a page. */
  lemma FramesUsableIff(regions: seq<MemoryRegion>)
    ensures (forall f | f in UsableFrames(regions) :: InUsable(regions, f))
       <==> forall i | 0 <= i < |regions| && PageCount(regions[i]) > 0 ::
              InUsable(regions, FirstPage(regions[i]) * PAGE)
    ensures forall i | 0 <= i < |regions| && PageCount(regions[i]) > 0 ::
              regions[i].start <= FirstPage(regions[i]) * PAGE
              <==> regions[i].start % PAGE == 0 || regions[i].start <= ALLOC_START
  {
    hide UsableFrames, Addresses, PageCount, FirstPage, FramesOf, InUsable;
    FramesLength(regions);
    forall i | 0 <= i < |regions| && PageCount(regions[i]) > 0
      ensures FirstPage(regions[i]) * PAGE in UsableFrames(regions)
      ensures regions[i].start <= FirstPage(regions[i]) * PAGE
              <==> regions[i].start % PAGE == 0 || regions[i].start <= ALLOC_START
    {
      FramesOfAre(regions[i]);
      InRegion(regions, i, 0);
      FirstInside(regions[i]);
    }
    if forall i | 0 <= i < |regions| && PageCount(regions[i]) > 0 :: InUsable(regions, FirstPage(regions[i]) * PAGE) {
      forall f | f in UsableFrames(regions) ensures InUsable(regions, f) {
        var n :| 0 <= n < |UsableFrames(regions)| && f == UsableFrames(regions)[n];
        var i, k := Locate(regions, n);
        if k > 0 {
          LaterInside(regions, i, k);
        }
      }
    }
  }

  lemma FirstInside(r: MemoryRegion)
    ensures r.start <= FirstPage(r) * PAGE <==> r.start % PAGE == 0 || r.start <= ALLOC_START
  {
  }

  lemma LaterInside(regions: seq<MemoryRegion>, i: nat, k: nat)
    requires i < |regions| && 0 < k < PageCount(regions[i]) && regions[i].kind == Usable
    ensures InUsable(regions, (FirstPage(regions[i]) + k) * PAGE)
  {
    hide PageCount;
    FramesOfAre(regions[i]);
    assert FramesOf(regions[i])[k] < regions[i].end;
  }

  /** A frame may reach past its region: none does exactly when the region ends no further into a page than its
      first address lies, as when it ends on a page boundary. */
  lemma LastFrameSpillsIff(r: MemoryRegion)
    requires PageCount(r) > 0
    ensures (forall f | f in UsableFrames([r]) :: f + PAGE <= r.end) <==> r.end % PAGE <= FirstAddress(r) % PAGE
  {
    hide FramesOf, UsableFrames, PageCount;
    var last := PageCount(r) - 1;
    OnlyRegion(r);
    LastPageEnds(r);
    assert UsableFrames([r])[last] == (FirstPage(r) + last) * PAGE;
    assert UsableFrames([r])[last] in UsableFrames([r]);
  }

  lemma OnlyRegion(r: MemoryRegion)
    ensures |UsableFrames([r])| == PageCount(r)
    ensures forall k | 0 <= k < PageCount(r) :: UsableFrames([r])[k] == (FirstPage(r) + k) * PAGE
  {
    FramesOfAre(r);
    assert Addresses([r]) == FramesOf(r) + [];
  }

  lemma LastPageEnds(r: MemoryRegion)
    requires PageCount(r) > 0
    ensures (FirstPage(r) + PageCount(r)) * PAGE <= r.end <==> r.end % PAGE <= FirstAddress(r) % PAGE
  {
  }
}
