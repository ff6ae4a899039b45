/** The first-fit allocator whose free list is threaded through the free memory itself. */
module LinkedListAllocator {
  import opened HeapTypes
  import opened Wrappers

  /** Size and alignment of a list node, two machine words. */
  const NODE_SIZE: nat := 16
  const NODE_ALIGN: nat := 8

  /** A region taken off the free list and where in it the allocation starts. */
  datatype Fit = Fit(region: Region, at: nat)

  // ----- What the allocator computes

  /** The layout adjusted so that a freed block can hold a list node. */
  function SizeAlign(l: Layout): (r: Layout)
    requires ValidLayout(l)
    ensures r.align > 0
  {
    var align := if l.align > NODE_ALIGN then l.align else NODE_ALIGN;
    var size := AlignUp(l.size, align);
    Layout(if size > NODE_SIZE then size else NODE_SIZE, align)
  }

  /** Where an allocation would start in a region. A rest too small for a node is not accepted. */
  function AllocFromRegion(r: Region, size: nat, align: nat): Option<nat>
    requires align > 0
  {
    var at := AlignUp(r.start, align);
    if at + size > r.End() then None
    else if 0 < r.End() - (at + size) < NODE_SIZE then None
    else Some(at)
  }

  /** The index of the first region that can hold the request. */
  function FirstFit(free: seq<Region>, size: nat, align: nat): (r: Option<nat>)
    requires align > 0
    ensures r.Some? ==> r.value < |free|
  {
    if free == [] then None
    else if AllocFromRegion(free[0], size, align).Some? then Some(0)
    else
      match FirstFit(free[1..], size, align)
      case None => None
      case Some(i) => Some(i + 1)
  }

  function FindRegion(free: seq<Region>, size: nat, align: nat): (Option<Fit>, seq<Region>)
    requires align > 0
  {
    match FirstFit(free, size, align)
    case None => (None, free)
    case Some(i) =>
      var at := AllocFromRegion(free[i], size, align);
      if at.None? then (None, free) else (Some(Fit(free[i], at.value)), Without(free, i))
  }

  /** The rest of a region behind an allocation, if any, goes back to the front of the list. */
  function Rest(fit: Fit, size: nat): seq<Region> {
    var end := fit.at + size;
    if fit.region.End() > end then [Region(end, fit.region.End() - end)] else []
  }

  function Alloc(free: seq<Region>, l: Layout): (Option<nat>, seq<Region>)
    requires ValidLayout(l)
  {
    var want := SizeAlign(l);
    var (found, rest) := FindRegion(free, want.size, want.align);
    if found.None? then (None, free)
    else (Some(found.value.at), Rest(found.value, want.size) + rest)
  }

  function Dealloc(free: seq<Region>, ptr: nat, l: Layout): seq<Region>
    requires ValidLayout(l)
  {
    [Region(ptr, SizeAlign(l).size)] + free
  }

  // ----- Facts about one step

  /** The adjusted size is a positive multiple of the node alignment, at least a node, and covers the
      request; the adjusted alignment covers the requested one. */
  lemma SizeAlignFacts(l: Layout)
    requires ValidLayout(l)
    ensures var r := SizeAlign(l);
      && r.size >= NODE_SIZE && r.size >= l.size && r.size % NODE_ALIGN == 0
      && r.align % NODE_ALIGN == 0 && r.align >= l.align && (r.align == l.align || (r.align == 8 && l.align < 8))
  {
    hide IsPow2, AlignUp;
    var align := if l.align > NODE_ALIGN then l.align else NODE_ALIGN;
    if l.align > NODE_ALIGN {
      Pow2Multiple(l.align);
    }
    AlignUpLeast(l.size, align);
    MultipleOfMultiple(AlignUp(l.size, align), align);
  }

  ghost predicate GoodRegion(r: Region) {
    r.start % NODE_ALIGN == 0 && r.size >= NODE_SIZE
  }

  /** A fit lies inside its region, is aligned, and leaves nothing or a whole free region behind. */
  lemma FitFacts(r: Region, size: nat, align: nat)
    requires align > 0 && align % NODE_ALIGN == 0 && size % NODE_ALIGN == 0
    requires AllocFromRegion(r, size, align).Some?
    ensures var at := AllocFromRegion(r, size, align).value;
      && r.start <= at && at + size <= r.End() && at % align == 0 && at % NODE_ALIGN == 0
      && (r.End() == at + size || GoodRegion(Region(at + size, r.End() - (at + size))))
      && (align == NODE_ALIGN && r.start % NODE_ALIGN == 0 ==> at == r.start)
  {
    hide AlignUp;
    AlignUpLeast(r.start, align);
    MultipleOfMultiple(AlignUp(r.start, align), align);
    SumMultiple(AlignUp(r.start, align), size);
  }

  /** A request may start at `at` in a region: that is the least multiple of the alignment from the region's
      start on, and behind the request nothing is left over or at least the sixteen bytes of a node. */
  ghost predicate Holds(r: Region, size: nat, align: nat, at: nat)
    requires align > 0
  {
    && at % align == 0 && r.start <= at < r.start + align
    && (at + size == r.start + r.size || at + size + 16 <= r.start + r.size)
  }

  /** Which regions can hold a request, and where. */
  lemma FitIff(r: Region, size: nat, align: nat, at: nat)
    requires align > 0
    ensures AllocFromRegion(r, size, align) == Some(at) <==> Holds(r, size, align, at)
  {
    hide AlignUp;
    AlignUpIff(r.start, align, at);
  }

  /** First fit: no earlier region can hold the request, and the found one can. */
  lemma {:induction false} FirstFitFacts(free: seq<Region>, size: nat, align: nat)
    requires align > 0
    ensures var r := FirstFit(free, size, align);
      match r
      case None => forall i | 0 <= i < |free| :: AllocFromRegion(free[i], size, align).None?
      case Some(i) =>
        && AllocFromRegion(free[i], size, align).Some?
        && forall j | 0 <= j < i :: AllocFromRegion(free[j], size, align).None?
  {
    if free != [] {
      FirstFitFacts(free[1..], size, align);
    }
  }

  /** The adjusted layout: an alignment of at least 8, and of the least multiple of it that covers the request
      at least 16 bytes. */
  lemma SizeAlignIs(l: Layout, m: nat)
    requires ValidLayout(l)
    requires var align := if l.align < 8 then 8 else l.align; m % align == 0 && l.size <= m < l.size + align
    ensures SizeAlign(l) == Layout(if m < 16 then 16 else m, if l.align < 8 then 8 else l.align)
  {
    hide AlignUp, IsPow2;
    AlignUpIff(l.size, if l.align < 8 then 8 else l.align, m);
  }

  /** Allocation returns null exactly when no region has an address at which the request can start. */
  lemma AllocFailsIff(free: seq<Region>, l: Layout)
    requires ValidLayout(l)
    ensures var want := SizeAlign(l);
      Alloc(free, l).0.None? <==>
      forall i: nat, at: nat | i < |free| :: !Holds(free[i], want.size, want.align, at)
  {
    hide SizeAlign, AllocFromRegion, Holds;
    var want := SizeAlign(l);
    FirstFitFacts(free, want.size, want.align);
    forall i: nat, at: nat | i < |free|
      ensures AllocFromRegion(free[i], want.size, want.align) == Some(at) <==>
              Holds(free[i], want.size, want.align, at)
    {
      FitIff(free[i], want.size, want.align, at);
    }
    if FirstFit(free, want.size, want.align).None? {
      forall i: nat, at: nat | i < |free| ensures !Holds(free[i], want.size, want.align, at) {
        assert AllocFromRegion(free[i], want.size, want.align) != Some(at);
      }
    }
  }

  /** When the `i`-th region is the first that can hold the request, at `at`, it is unlinked, `at` is returned,
      and what is left behind the request becomes the first free region. What lies in front of `at` is dropped. */
  lemma AllocTakes(free: seq<Region>, l: Layout, i: nat, at: nat)
    requires ValidLayout(l) && i < |free|
    requires Holds(free[i], SizeAlign(l).size, SizeAlign(l).align, at)
    requires forall j: nat, a: nat | j < i :: !Holds(free[j], SizeAlign(l).size, SizeAlign(l).align, a)
    ensures var end := at + SizeAlign(l).size;
      var left := free[i].start + free[i].size - end;
      && Alloc(free, l).0 == Some(at)
      && Alloc(free, l).1 == (if left == 0 then [] else [Region(end, left)]) + free[..i] + free[i + 1..]
  {
    hide SizeAlign, AllocFromRegion;
    var want := SizeAlign(l);
    FirstFitFacts(free, want.size, want.align);
    FitIff(free[i], want.size, want.align, at);
    var found := FirstFit(free, want.size, want.align);
    if found.value < i {
      var j := found.value;
      FitIff(free[j], want.size, want.align, AllocFromRegion(free[j], want.size, want.align).value);
    }
    assert found == Some(i);
    var rest := Rest(Fit(free[i], at), want.size);
    assert rest + (free[..i] + free[i + 1..]) == rest + free[..i] + free[i + 1..];
  }

  /** Freeing a block and allocating the same layout returns the same address and restores the list. */
  lemma FreeThenAlloc(free: seq<Region>, ptr: nat, l: Layout)
    requires ValidLayout(l) && ptr % SizeAlign(l).align == 0
    ensures Alloc(Dealloc(free, ptr, l), l) == (Some(ptr), free)
  {
    var freed := Dealloc(free, ptr, l);
    AlignUpLeast(ptr, SizeAlign(l).align);
    assert AllocFromRegion(freed[0], SizeAlign(l).size, SizeAlign(l).align) == Some(ptr);
    assert Without(freed, 0) == free && [] + free == free;
  }

  // ----- The allocator itself: nodes written into the free memory

  datatype Node = Node(size: nat, next: Option<nat>)

  /** The chain of nodes that starts at `head` is the list of free regions. */
  ghost predicate Chain(head: Option<nat>, nodes: map<nat, Node>, free: seq<Region>)
    decreases |free|
  {
    if free == [] then head == None
    else
      && head == Some(free[0].start) && free[0].start in nodes
      && nodes[free[0].start].size == free[0].size
      && Chain(nodes[free[0].start].next, nodes, free[1..])
  }

  ghost predicate DistinctStarts(free: seq<Region>) {
    forall i, j | 0 <= i < j < |free| :: free[i].start != free[j].start
  }

  lemma WithoutKeeps(free: seq<Region>, i: nat)
    requires i < |free| && DistinctStarts(free) && forall k | 0 <= k < |free| :: GoodRegion(free[k])
    ensures var left := Without(free, i);
      DistinctStarts(left) && forall k | 0 <= k < |left| :: GoodRegion(left[k])
  {
  }

  /** Writing a node elsewhere does not disturb a chain. */
  lemma {:induction false} ChainElsewhere(head: Option<nat>, nodes: map<nat, Node>, free: seq<Region>, at: nat, n: Node)
    requires Chain(head, nodes, free) && forall i | 0 <= i < |free| :: free[i].start != at
    ensures Chain(head, nodes[at := n], free)
    decreases |free|
  {
    if free != [] {
      ChainElsewhere(nodes[free[0].start].next, nodes, free[1..], at, n);
    }
  }

  /** Redirecting the last link of a prefix. */
  lemma {:induction false} ChainRelinked(head: Option<nat>, nodes: map<nat, Node>, free: seq<Region>, i: nat,
                                         tail: Option<nat>, rest: seq<Region>)
    requires 0 < i <= |free| && Chain(head, nodes, free) && DistinctStarts(free)
    requires Chain(tail, nodes, rest)
    requires forall k | 0 <= k < |rest| :: rest[k].start != free[i - 1].start
    ensures free[i - 1].start in nodes
    ensures Chain(head, nodes[free[i - 1].start := Node(free[i - 1].size, tail)], free[..i] + rest)
    decreases |free|
  {
    var last := free[i - 1].start;
    if i == 1 {
      assert (free[..1] + rest)[1..] == rest;
      ChainElsewhere(tail, nodes, rest, last, Node(free[0].size, tail));
    } else {
      assert (free[..i] + rest)[1..] == free[1..][..i - 1] + rest;
      assert free[0].start != last;
      ChainRelinked(nodes[free[0].start].next, nodes, free[1..], i - 1, tail, rest);
    }
  }

  /** The chain from the `i`-th node on. */
  lemma {:induction false} ChainFrom(head: Option<nat>, nodes: map<nat, Node>, free: seq<Region>, i: nat)
    requires i < |free| && Chain(head, nodes, free)
    ensures free[i].start in nodes && nodes[free[i].start].size == free[i].size
    ensures Chain(nodes[free[i].start].next, nodes, free[i + 1..])
    decreases |free|
  {
    if i > 0 {
      ChainFrom(nodes[free[0].start].next, nodes, free[1..], i - 1);
      assert free[1..][i..] == free[i + 1..];
    }
  }

  class Allocator {
    var head: Option<nat>
    var nodes: map<nat, Node>
    ghost var free: seq<Region>

    ghost predicate Valid()
      reads this
    {
      Chain(head, nodes, free) && DistinctStarts(free) && forall i | 0 <= i < |free| :: GoodRegion(free[i])
    }

    constructor ()
      ensures Valid() && free == []
    {
      head, nodes, free := None, map[], [];
    }

    method Init(start: nat, size: nat)
      requires Valid() && free == [] && GoodRegion(Region(start, size))
      modifies this
      ensures Valid() && free == [Region(start, size)]
    {
      AddFreeRegion(start, size);
    }

    /** The preconditions are the two assertions of the program, and that the memory is not free yet. */
    method AddFreeRegion(addr: nat, size: nat)
      requires Valid() && GoodRegion(Region(addr, size))
      requires forall i | 0 <= i < |free| :: free[i].start != addr
      modifies this
      ensures Valid() && free == [Region(addr, size)] + old(free)
    {
      ChainElsewhere(head, nodes, free, addr, Node(size, head));
      nodes := nodes[addr := Node(size, head)];
      head := Some(addr);
      assert ([Region(addr, size)] + free)[1..] == free;
      free := [Region(addr, size)] + free;
    }

    /** Walks the chain and unlinks the first node whose region can hold the request. */
    method TakeRegion(size: nat, align: nat) returns (r: Option<Fit>)
      requires Valid() && align > 0
      modifies this
      ensures Valid() && (r, free) == FindRegion(old(free), size, align)
      ensures forall f :: f in free ==> f in old(free)
    {
      var prev: Option<nat> := None;
      var current := head;
      ghost var i := 0;
      FirstFitFacts(free, size, align);
      while current.Some?
        invariant free == old(free) && Valid() && nodes == old(nodes) && head == old(head)
        invariant i <= |free| && Chain(current, nodes, free[i..])
        invariant if i == 0 then prev == None && current == head else prev == Some(free[i - 1].start)
        invariant forall j | 0 <= j < i :: AllocFromRegion(free[j], size, align).None?
        decreases |free| - i
      {
        var addr := current.value;
        var node := nodes[addr];
        var region := Region(addr, node.size);
        assert region == free[i];
        var at := AllocFromRegion(region, size, align);
        if at.Some? {
          assert FirstFit(free, size, align) == Some(i);
          Unlink(prev, node.next, i);
          return Some(Fit(region, at.value));
        }
        assert free[i..][1..] == free[i + 1..];
        prev, current, i := current, node.next, i + 1;
      }
      return None;
    }

    /** Makes the link that led to the `i`-th node skip it. */
    method Unlink(prev: Option<nat>, next: Option<nat>, ghost i: nat)
      requires Valid() && i < |free|
      requires free[i].start in nodes && next == nodes[free[i].start].next
      requires prev == if i == 0 then None else Some(free[i - 1].start)
      modifies this
      ensures Valid() && free == Without(old(free), i)
    {
      hide Chain, GoodRegion;
      ChainFrom(head, nodes, free, i);
      WithoutKeeps(free, i);
      if prev.None? {
        head := next;
        assert Without(free, 0) == free[1..];
      } else {
        ChainFrom(head, nodes, free, i - 1);
        ChainRelinked(head, nodes, free, i, next, free[i + 1..]);
        nodes := nodes[prev.value := nodes[prev.value].(next := next)];
      }
      free := Without(free, i);
    }

    /** No assertion of the program fires here: the rest of a region is aligned and at least a node. */
    method Allocate(l: Layout) returns (r: Option<nat>)
      requires Valid() && ValidLayout(l)
      requires Disjoint(free)
      modifies this
      ensures Valid() && (r, free) == Alloc(old(free), l)
    {
      hide SizeAlign, AllocFromRegion, Chain, FindRegion, Disjoint, AlignUp;
      var want := SizeAlign(l);
      SizeAlignFacts(l);
      FindRegionFacts(free, want.size, want.align);
      var found := TakeRegion(want.size, want.align);
      if found.None? {
        return None;
      }
      var fit := found.value;
      var end := fit.at + want.size;
      if fit.region.End() > end {
        AddFreeRegion(end, fit.region.End() - end);
      } else {
        assert [] + free == free;
      }
      return Some(fit.at);
    }

    /** Freeing a block whose memory is not free. */
    method Deallocate(ptr: nat, l: Layout)
      requires Valid() && ValidLayout(l) && ptr % NODE_ALIGN == 0
      requires forall i | 0 <= i < |free| :: free[i].start != ptr
      modifies this
      ensures Valid() && free == Dealloc(old(free), ptr, l)
    {
      SizeAlignFacts(l);
      AddFreeRegion(ptr, SizeAlign(l).size);
    }
  }

  ghost predicate Disjoint(free: seq<Region>) {
    forall i, j | 0 <= i < j < |free| :: Apart(free[i], free[j])
  }

  /** What is taken out of a list of disjoint regions: the rest behind it is aligned, at least a node, and
      starts where no region left on the list does. */
  lemma FindRegionFacts(free: seq<Region>, size: nat, align: nat)
    requires align > 0 && align % NODE_ALIGN == 0 && size % NODE_ALIGN == 0 && size > 0
    requires Disjoint(free) && forall k | 0 <= k < |free| :: GoodRegion(free[k])
    ensures var (found, left) := FindRegion(free, size, align);
      if found.None? then left == free
      else
        var fit, end := found.value, found.value.at + size;
        && fit.region.start <= fit.at && end <= fit.region.End()
        && (fit.region.End() > end ==> GoodRegion(Region(end, fit.region.End() - end)))
        && (fit.region.End() > end ==> forall k | 0 <= k < |left| :: left[k].start != end)
  {
    hide AlignUp, AllocFromRegion;
    FirstFitFacts(free, size, align);
    var i := FirstFit(free, size, align);
    if i.Some? {
      var at := AllocFromRegion(free[i.value], size, align);
      FitFacts(free[i.value], size, align);
      if free[i.value].End() > at.value + size {
        RestIsNew(free, i.value, at.value + size);
      }
    }
  }

  /** The rest of a free region starts where no other free region does. */
  lemma RestIsNew(free: seq<Region>, i: nat, end: nat)
    requires Disjoint(free) && i < |free| && free[i].start <= end < free[i].End()
    requires forall k | 0 <= k < |free| :: GoodRegion(free[k])
    ensures forall k | 0 <= k < |Without(free, i)| :: Without(free, i)[k].start != end
  {
  }
}
