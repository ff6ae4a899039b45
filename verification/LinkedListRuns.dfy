/** Every run of allocations and frees over the first-fit allocator. */
module LinkedListRuns {
  import opened Arithmetic
  import opened HeapTypes
  import opened LinkedListAllocator
  import opened Wrappers

  datatype Block = Block(ptr: nat, layout: Layout) {
    /** The memory behind a block: the adjusted size, not the requested one. */
    function Held(): Region
      requires ValidLayout(layout)
    {
      Region(ptr, SizeAlign(layout).size)
    }
  }

  type Live = s: seq<Block> | forall i | 0 <= i < |s| :: ValidLayout(s[i].layout)

  /** The free list, the blocks handed out and not freed, and the padding in front of blocks that the
      program forgets. */
  datatype State = State(free: seq<Region>, live: Live, padding: seq<Region>) {
    function Regions(): seq<Region> {
      free + HeldBy(live) + padding
    }
  }

  /** A caller asks for memory or gives back the `index`-th block it holds. */
  datatype Op = Get(layout: Layout) | Give(index: nat)

  type Ops = s: seq<Op> | forall i | 0 <= i < |s| && s[i].Get? :: ValidLayout(s[i].layout)

  function HeldBy(live: Live): (r: seq<Region>)
    ensures |r| == |live| && forall i | 0 <= i < |r| :: r[i] == live[i].Held()
  {
    seq(|live|, i requires 0 <= i < |live| => live[i].Held())
  }

  function Gap(fit: Fit): seq<Region> {
    if fit.at > fit.region.start then [Region(fit.region.start, fit.at - fit.region.start)] else []
  }

  /** One call. Giving back a block that is not held is not a call a program may make. */
  function Step(s: State, op: Op): State
    requires op.Get? ==> ValidLayout(op.layout)
  {
    match op
    case Get(l) =>
      var fit := FindRegion(s.free, SizeAlign(l).size, SizeAlign(l).align).0;
      var (r, free) := Alloc(s.free, l);
      if fit.None? || r.None? then s
      else State(free, s.live + [Block(r.value, l)], s.padding + Gap(fit.value))
    case Give(i) =>
      if i < |s.live| then
        State(Dealloc(s.free, s.live[i].ptr, s.live[i].layout), Without(s.live, i), s.padding)
      else s
  }

  function Run(s: State, ops: Ops): State
    decreases |ops|
  {
    if ops == [] then s else Run(Step(s, ops[0]), ops[1..])
  }

  function Start(heap: Region): State {
    State([heap], [], [])
  }

  // ----- Counting how many regions hold an address

  function Has(r: Region, a: int): nat {
    if r.start <= a < r.End() then 1 else 0
  }

  function Count(rs: seq<Region>, a: int): nat {
    if rs == [] then 0 else Has(rs[0], a) + Count(rs[1..], a)
  }

  lemma {:induction false} CountSum(s: seq<Region>, t: seq<Region>, a: int)
    ensures Count(s + t, a) == Count(s, a) + Count(t, a)
  {
    if s == [] {
      assert s + t == t;
    } else {
      assert (s + t)[1..] == s[1..] + t;
      CountSum(s[1..], t, a);
    }
  }

  lemma {:induction false} CountWithout(s: seq<Region>, i: nat, a: int)
    requires i < |s|
    ensures Count(s, a) == Count(Without(s, i), a) + Has(s[i], a)
  {
    assert s == s[..i] + ([s[i]] + s[i + 1..]);
    assert ([s[i]] + s[i + 1..])[1..] == s[i + 1..];
    CountSum(s[..i], [s[i]] + s[i + 1..], a);
    CountSum(s[..i], s[i + 1..], a);
  }

  lemma {:induction false} CountTwice(s: seq<Region>, i: nat, j: nat, a: int)
    requires i < j < |s| && Has(s[i], a) == 1 && Has(s[j], a) == 1
    ensures Count(s, a) >= 2
  {
    CountWithout(s, j, a);
    CountWithout(Without(s, j), i, a);
  }

  lemma {:induction false} CountRegions(s: State, a: int)
    ensures Count(s.Regions(), a) == Count(s.free, a) + Count(HeldBy(s.live), a) + Count(s.padding, a)
  {
    CountSum(s.free + HeldBy(s.live), s.padding, a);
    CountSum(s.free, HeldBy(s.live), a);
  }

  /** Each address of the heap is in exactly one of the regions, and no other address is in any. */
  ghost predicate Partition(heap: Region, rs: seq<Region>) {
    forall a: int :: Count(rs, a) == Has(heap, a)
  }

  ghost predicate Inside(r: Region, q: Region) {
    q.start <= r.start && r.End() <= q.End()
  }

  /** What a partition means for two of its regions. */
  lemma PartitionDisjoint(heap: Region, rs: seq<Region>, i: nat, j: nat)
    requires Partition(heap, rs) && i < j < |rs| && rs[i].size > 0 && rs[j].size > 0
    ensures Apart(rs[i], rs[j])
  {
    if !Apart(rs[i], rs[j]) {
      var a := if rs[i].start < rs[j].start then rs[j].start else rs[i].start;
      CountTwice(rs, i, j, a);
      assert false;
    }
  }

  lemma PartitionInside(heap: Region, rs: seq<Region>, i: nat)
    requires Partition(heap, rs) && i < |rs| && rs[i].size > 0
    ensures Inside(rs[i], heap)
  {
    CountWithout(rs, i, rs[i].start);
    CountWithout(rs, i, rs[i].End() - 1);
  }

  // ----- The invariant

  ghost predicate AllGood(free: seq<Region>) {
    forall i | 0 <= i < |free| :: GoodRegion(free[i])
  }

  ghost predicate AllAligned(live: Live) {
    forall i | 0 <= i < |live| :: live[i].ptr % SizeAlign(live[i].layout).align == 0
  }

  ghost predicate Good(heap: Region, s: State) {
    Partition(heap, s.Regions()) && AllGood(s.free) && AllAligned(s.live)
  }

  /** A region that is taken splits into the gap, the block and the rest. */
  lemma {:induction false} Split(fit: Fit, size: nat, a: int)
    requires fit.region.start <= fit.at && fit.at + size <= fit.region.End()
    ensures Has(fit.region, a) == Count(Gap(fit), a) + Has(Region(fit.at, size), a) + Count(Rest(fit, size), a)
  {
  }

  /** What a successful `Get` does to the state, in one place. */
  lemma GetFacts(s: State, l: Layout)
    requires ValidLayout(l) && AllGood(s.free)
    ensures var want := SizeAlign(l);
            var i := FirstFit(s.free, want.size, want.align);
            var next := Step(s, Get(l));
            if i.None? then next == s && Alloc(s.free, l) == (None, s.free)
            else
              var at := AllocFromRegion(s.free[i.value], want.size, want.align);
              && at.Some?
              && var fit := Fit(s.free[i.value], at.value);
              && fit.region.start <= fit.at && fit.at + want.size <= fit.region.End()
              && fit.at % want.align == 0 && fit.at % NODE_ALIGN == 0
              && (want.align == NODE_ALIGN ==> fit.at == fit.region.start)
              && AllGood(Rest(fit, want.size))
              && Alloc(s.free, l) == (Some(fit.at), Rest(fit, want.size) + Without(s.free, i.value))
              && next == State(Rest(fit, want.size) + Without(s.free, i.value), s.live + [Block(fit.at, l)],
                               s.padding + Gap(fit))
  {
    hide AlignUp, SizeAlign;
    var want := SizeAlign(l);
    SizeAlignFacts(l);
    FirstFitFacts(s.free, want.size, want.align);
    var i := FirstFit(s.free, want.size, want.align);
    if i.Some? {
      assert GoodRegion(s.free[i.value]);
      FitFacts(s.free[i.value], want.size, want.align);
    }
  }

  lemma {:induction false} GetKeepsCount(s: State, l: Layout, a: int)
    requires ValidLayout(l) && AllGood(s.free)
    ensures Count(Step(s, Get(l)).Regions(), a) == Count(s.Regions(), a)
  {
    hide SizeAlign, AllocFromRegion, Step, Alloc, Rest, Gap;
    var want := SizeAlign(l);
    GetFacts(s, l);
    var i := FirstFit(s.free, want.size, want.align);
    if i.Some? {
      var fit := Fit(s.free[i.value], AllocFromRegion(s.free[i.value], want.size, want.align).value);
      var next := Step(s, Get(l));
      CountRegions(s, a);
      CountRegions(next, a);
      CountWithout(s.free, i.value, a);
      CountSum(Rest(fit, want.size), Without(s.free, i.value), a);
      CountSum(s.padding, Gap(fit), a);
      assert HeldBy(next.live) == HeldBy(s.live) + [Region(fit.at, want.size)];
      CountSum(HeldBy(s.live), [Region(fit.at, want.size)], a);
      Split(fit, want.size, a);
    }
  }

  lemma {:induction false} GiveKeepsCount(s: State, i: nat, a: int)
    requires i < |s.live|
    ensures Count(Step(s, Give(i)).Regions(), a) == Count(s.Regions(), a)
  {
    hide SizeAlign;
    var next := Step(s, Give(i));
    CountRegions(s, a);
    CountRegions(next, a);
    assert next.free == [s.live[i].Held()] + s.free;
    CountSum([s.live[i].Held()], s.free, a);
    assert HeldBy(next.live) == Without(HeldBy(s.live), i);
    CountWithout(HeldBy(s.live), i, a);
  }

  lemma GoodWithout(free: seq<Region>, i: nat, more: seq<Region>)
    requires i < |free| && AllGood(free) && AllGood(more)
    ensures AllGood(more + Without(free, i))
  {
  }

  /** Every call keeps the partition, the free regions aligned and large enough, and the blocks aligned. */
  lemma StepGood(heap: Region, s: State, op: Op)
    requires Good(heap, s) && (op.Get? ==> ValidLayout(op.layout))
    ensures Good(heap, Step(s, op))
  {
    hide SizeAlign, Alloc, Step, AllocFromRegion, Rest, Gap, Count;
    match op
    case Get(l) =>
      GetFacts(s, l);
      var want := SizeAlign(l);
      var i := FirstFit(s.free, want.size, want.align);
      if i.Some? {
        var fit := Fit(s.free[i.value], AllocFromRegion(s.free[i.value], want.size, want.align).value);
        GoodWithout(s.free, i.value, Rest(fit, want.size));
        forall a: int ensures Count(Step(s, op).Regions(), a) == Has(heap, a) {
          GetKeepsCount(s, l, a);
        }
      }
    case Give(i) =>
      GiveFacts(s, i);
      if i < |s.live| {
        forall a: int ensures Count(Step(s, op).Regions(), a) == Has(heap, a) {
          GiveKeepsCount(s, i, a);
        }
      }
  }

  /** What a `Give` does to the state. */
  lemma GiveFacts(s: State, i: nat)
    requires AllGood(s.free) && AllAligned(s.live)
    ensures var next := Step(s, Give(i));
            if i >= |s.live| then next == s
            else
              && next.free == [s.live[i].Held()] + s.free && next.live == Without(s.live, i)
              && next.padding == s.padding && AllGood(next.free) && AllAligned(next.live)
              && s.live[i].ptr % NODE_ALIGN == 0
  {
    hide SizeAlign;
    if i < |s.live| {
      var b := s.live[i];
      SizeAlignFacts(b.layout);
      MultipleOfMultiple(b.ptr, SizeAlign(b.layout).align);
      var next := Step(s, Give(i));
      forall k | 0 <= k < |next.free| ensures GoodRegion(next.free[k]) {
        assert k > 0 ==> next.free[k] == s.free[k - 1];
      }
      forall k | 0 <= k < |next.live| ensures next.live[k].ptr % SizeAlign(next.live[k].layout).align == 0 {
        assert next.live[k] == s.live[if k < i then k else k + 1];
      }
    }
  }

  /** Over every sequence of calls, the free regions, the blocks held and the dropped padding partition the
      heap exactly. */
  lemma {:induction false} RunGood(heap: Region, s: State, ops: Ops)
    requires Good(heap, s)
    ensures Good(heap, Run(s, ops))
    decreases |ops|
  {
    if ops != [] {
      StepGood(heap, s, ops[0]);
      RunGood(heap, Step(s, ops[0]), ops[1..]);
    }
  }

  lemma StartGood(heap: Region)
    requires GoodRegion(heap)
    ensures Good(heap, Start(heap))
  {
  }

  // ----- What the invariant gives to callers

  /** The blocks held are aligned as requested, as large as requested, inside the heap, apart from each
      other and apart from the memory on the free list. */
  lemma HeldBlocksAreSafe(heap: Region, s: State, i: nat)
    requires Good(heap, s) && i < |s.live|
    ensures var b := s.live[i];
      && b.ptr % b.layout.align == 0
      && b.layout.size <= b.Held().size && Inside(b.Held(), heap)
      && (forall j | 0 <= j < |s.live| && j != i :: Apart(b.Held(), s.live[j].Held()))
      && (forall j | 0 <= j < |s.free| :: Apart(b.Held(), s.free[j]))
  {
    hide SizeAlign, Count, IsPow2;
    var b := s.live[i];
    var rs, n := s.Regions(), |s.free|;
    SizeAlignFacts(b.layout);
    assert rs[n + i] == b.Held();
    PartitionInside(heap, rs, n + i);
    SmallAligned(b.ptr, b.layout.align, SizeAlign(b.layout).align);
    forall j | 0 <= j < |s.live| && j != i
      ensures Apart(b.Held(), s.live[j].Held())
    {
      SizeAlignFacts(s.live[j].layout);
      assert rs[n + j] == s.live[j].Held();
      PartitionDisjoint(heap, rs, n + if i < j then i else j, n + if i < j then j else i);
    }
    forall j | 0 <= j < |s.free|
      ensures Apart(b.Held(), s.free[j])
    {
      assert rs[j] == s.free[j];
      PartitionDisjoint(heap, rs, j, n + i);
    }
  }

  lemma {:induction false} SmallAligned(n: nat, small: nat, large: nat)
    requires IsPow2(small) && large > 0 && n % large == 0
    requires large == small || (large == 8 && small < 8)
    ensures n % small == 0
  {
    if large == 8 && small < 8 {
      SmallPow2(small);
      DividesFactor(n, small, 8 / small);
    }
  }

  /** A multiple of `a * b` is a multiple of `a`. */
  lemma DividesFactor(n: nat, a: nat, b: nat)
    requires a > 0 && b > 0 && n % (a * b) == 0
    ensures n % a == 0
  {
    var q := n / (a * b);
    assert n == (q * b) * a by {
      assert n == (a * b) * q;
      assert (a * b) * q == (q * b) * a;
    }
    DivModUnique(n, a, q * b, 0);
  }

  lemma {:induction false} SmallPow2(n: nat)
    requires IsPow2(n) && n < 8
    ensures n == 1 || n == 2 || n == 4
  {
  }

  /** The free regions of a good state are apart from each other. */
  lemma FreeDisjoint(heap: Region, s: State)
    requires Good(heap, s)
    ensures Disjoint(s.free)
  {
    hide SizeAlign, Count;
    forall i, j | 0 <= i < j < |s.free|
      ensures Apart(s.free[i], s.free[j])
    {
      assert s.Regions()[i] == s.free[i] && s.Regions()[j] == s.free[j];
      PartitionDisjoint(heap, s.Regions(), i, j);
    }
  }

  // ----- Conservation in bytes

  function Bytes(rs: seq<Region>): nat {
    if rs == [] then 0 else rs[0].size + Bytes(rs[1..])
  }

  /** The counts of the addresses from `lo` on, added up. */
  function CountsFrom(rs: seq<Region>, lo: int, n: nat): nat {
    if n == 0 then 0 else CountsFrom(rs, lo, n - 1) + Count(rs, lo + n - 1)
  }

  lemma {:induction false} CountsOfFirst(rs: seq<Region>, lo: int, n: nat)
    requires rs != [] && lo <= rs[0].start
    ensures var inside := lo + n - rs[0].start;
            CountsFrom(rs, lo, n) == CountsFrom(rs[1..], lo, n) +
              (if inside <= 0 then 0 else if inside >= rs[0].size then rs[0].size else inside)
  {
    if n > 0 {
      CountsOfFirst(rs, lo, n - 1);
    }
  }

  lemma {:induction false} CountsOfAll(rs: seq<Region>, lo: int, n: nat)
    requires forall i | 0 <= i < |rs| :: lo <= rs[i].start && rs[i].End() <= lo + n
    ensures CountsFrom(rs, lo, n) == Bytes(rs)
    decreases |rs|
  {
    if rs == [] {
      NoCounts(lo, n);
    } else {
      CountsOfFirst(rs, lo, n);
      CountsOfAll(rs[1..], lo, n);
    }
  }

  lemma {:induction false} NoCounts(lo: int, n: nat)
    ensures CountsFrom([], lo, n) == 0
  {
    if n > 0 {
      NoCounts(lo, n - 1);
    }
  }

  lemma {:induction false} SameCounts(rs: seq<Region>, heap: Region, lo: int, n: nat)
    requires Partition(heap, rs)
    ensures CountsFrom(rs, lo, n) == CountsFrom([heap], lo, n)
  {
    if n > 0 {
      SameCounts(rs, heap, lo, n - 1);
      assert Count([heap], lo + n - 1) == Has(heap, lo + n - 1);
    }
  }

  /** The sizes of a partition add up to the heap. */
  lemma {:induction false} PartitionBytes(heap: Region, rs: seq<Region>)
    requires Partition(heap, rs) && NoneEmpty(rs)
    ensures Bytes(rs) == heap.size
  {
    forall i | 0 <= i < |rs|
      ensures heap.start <= rs[i].start && rs[i].End() <= heap.start + heap.size
    {
      PartitionInside(heap, rs, i);
    }
    CountsOfAll(rs, heap.start, heap.size);
    SameCounts(rs, heap, heap.start, heap.size);
    CountsOfAll([heap], heap.start, heap.size);
  }

  lemma {:induction false} BytesSum(s: seq<Region>, t: seq<Region>)
    ensures Bytes(s + t) == Bytes(s) + Bytes(t)
  {
    if s == [] {
      assert s + t == t;
    } else {
      assert (s + t)[1..] == s[1..] + t;
      BytesSum(s[1..], t);
    }
  }

  /** After every run from a fresh heap, no byte is unaccounted for. */
  lemma {:induction false} BytesConserved(heap: Region, ops: Ops)
    requires GoodRegion(heap)
    ensures var s := Run(Start(heap), ops);
      Bytes(s.free) + Bytes(HeldBy(s.live)) + Bytes(s.padding) == heap.size
  {
    hide SizeAlign, Run, Count;
    var s := Run(Start(heap), ops);
    StartGood(heap);
    RunGood(heap, Start(heap), ops);
    PaddingIsReal(heap, Start(heap), ops);
    forall i | 0 <= i < |s.live|
      ensures HeldBy(s.live)[i].size > 0
    {
      SizeAlignFacts(s.live[i].layout);
    }
    assert NoneEmpty(s.free + HeldBy(s.live) + s.padding);
    PartitionBytes(heap, s.Regions());
    BytesSum(s.free + HeldBy(s.live), s.padding);
    BytesSum(s.free, HeldBy(s.live));
  }

  // ----- Padding

  ghost predicate NoneEmpty(rs: seq<Region>) {
    forall i | 0 <= i < |rs| :: rs[i].size > 0
  }

  /** Every piece of padding has bytes in it. */
  lemma {:induction false} PaddingIsReal(heap: Region, s: State, ops: Ops)
    requires Good(heap, s) && NoneEmpty(s.padding)
    ensures NoneEmpty(Run(s, ops).padding)
    decreases |ops|
  {
    hide SizeAlign, Count, Step, Alloc, AllocFromRegion, Partition;
    if ops != [] {
      StepGood(heap, s, ops[0]);
      match ops[0] {
        case Get(l) => GetFacts(s, l);
        case Give(i) => GiveFacts(s, i);
      }
      PaddingIsReal(heap, Step(s, ops[0]), ops[1..]);
    }
  }

  /** Padding is only ever added, and with alignments of at most a machine word there is none. */
  lemma {:induction false} PaddingOnlyGrows(heap: Region, s: State, ops: Ops)
    requires Good(heap, s)
    ensures s.padding <= Run(s, ops).padding
    ensures (forall i | 0 <= i < |ops| && ops[i].Get? :: ops[i].layout.align <= NODE_ALIGN) ==>
            Run(s, ops).padding == s.padding
    decreases |ops|
  {
    hide SizeAlign, Count, Step, Alloc, AllocFromRegion, Partition;
    if ops != [] {
      var next := Step(s, ops[0]);
      StepGood(heap, s, ops[0]);
      PaddingOnlyGrows(heap, next, ops[1..]);
      match ops[0]
      case Get(l) =>
        GetFacts(s, l);
        SizeAlignFacts(l);
      case Give(i) =>
        GiveFacts(s, i);
    }
  }

  // ----- Nothing is ever merged

  /** Each region of `later` lies inside one region of `earlier`. */
  ghost predicate Refines(later: seq<Region>, earlier: seq<Region>) {
    forall i | 0 <= i < |later| :: WithinSome(later[i], earlier)
  }

  ghost predicate WithinSome(r: Region, rs: seq<Region>) {
    exists j | 0 <= j < |rs| :: Inside(r, rs[j])
  }

  lemma RefinesTransitive(a: seq<Region>, b: seq<Region>, c: seq<Region>)
    requires Refines(a, b) && Refines(b, c)
    ensures Refines(a, c)
  {
  }

  lemma RefinesSelf(a: seq<Region>)
    ensures Refines(a, a)
  {
  }

  lemma RefinesParts(a: seq<Region>, b: seq<Region>, c: seq<Region>)
    requires Refines(a, c) && Refines(b, c)
    ensures Refines(a + b, c)
  {
  }

  lemma RefinesMembers(a: seq<Region>, c: seq<Region>)
    requires forall r | r in a :: r in c
    ensures Refines(a, c)
  {
    forall i | 0 <= i < |a|
      ensures WithinSome(a[i], c)
    {
      assert a[i] in a && Inside(a[i], a[i]);
    }
  }

  lemma RefinesPiece(r: Region, q: Region, c: seq<Region>)
    requires Inside(r, q) && q in c
    ensures Refines([r], c)
  {
  }

  lemma GetRefines(s: State, l: Layout)
    requires ValidLayout(l) && AllGood(s.free)
    ensures Refines(Step(s, Get(l)).Regions(), s.Regions())
  {
    hide SizeAlign, AllocFromRegion, Step, Alloc, Refines;
    var want := SizeAlign(l);
    GetFacts(s, l);
    var i := FirstFit(s.free, want.size, want.align);
    if i.None? {
      RefinesSelf(s.Regions());
    } else {
      var rs, region := s.Regions(), s.free[i.value];
      var fit := Fit(region, AllocFromRegion(region, want.size, want.align).value);
      assert rs[i.value] == region;
      RefinesMembers([], rs);
      RefinesPiece(Region(fit.at, want.size), region, rs);
      RefinesMembers(HeldBy(s.live), rs);
      RefinesParts(HeldBy(s.live), [Region(fit.at, want.size)], rs);
      if fit.at > region.start {
        RefinesPiece(Gap(fit)[0], region, rs);
      }
      RefinesMembers(s.padding, rs);
      RefinesParts(s.padding, Gap(fit), rs);
      if region.End() > fit.at + want.size {
        RefinesPiece(Rest(fit, want.size)[0], region, rs);
      }
      RefinesMembers(Without(s.free, i.value), rs);
      RefinesParts(Rest(fit, want.size), Without(s.free, i.value), rs);
      var next := Step(s, Get(l));
      assert HeldBy(next.live) == HeldBy(s.live) + [Region(fit.at, want.size)];
      RefinesParts(next.free, HeldBy(next.live), rs);
      RefinesParts(next.free + HeldBy(next.live), next.padding, rs);
    }
  }

  lemma GiveRefines(s: State, i: nat)
    requires AllGood(s.free) && AllAligned(s.live)
    ensures Refines(Step(s, Give(i)).Regions(), s.Regions())
  {
    hide SizeAlign, Step, Refines;
    GiveFacts(s, i);
    if i >= |s.live| {
      RefinesSelf(s.Regions());
    } else {
      var next := Step(s, Give(i));
      assert HeldBy(s.live)[i] == s.live[i].Held();
      assert HeldBy(next.live) == Without(HeldBy(s.live), i);
      RefinesMembers(next.Regions(), s.Regions());
    }
  }

  /** Over every run, no region ever grows: each free region, block or padding at the end lies inside one
      region of the start. */
  lemma {:induction false} NeverMerges(heap: Region, s: State, ops: Ops)
    requires Good(heap, s)
    ensures Refines(Run(s, ops).Regions(), s.Regions())
    decreases |ops|
  {
    hide SizeAlign, Step, Refines;
    if ops == [] {
      RefinesSelf(s.Regions());
    } else {
      var next := Step(s, ops[0]);
      StepGood(heap, s, ops[0]);
      match ops[0] {
        case Get(l) => GetRefines(s, l);
        case Give(i) => GiveRefines(s, i);
      }
      NeverMerges(heap, next, ops[1..]);
      RefinesTransitive(Run(next, ops[1..]).Regions(), next.Regions(), s.Regions());
    }
  }

  lemma HoldsIsLarge(r: Region, size: nat, align: nat, at: nat)
    requires align > 0 && Holds(r, size, align, at)
    ensures r.size >= size
  {
  }

  /** Fragmentation is for good: a request larger than every region of the heap fails after every further
      run, even one that gives back every block. */
  lemma {:induction false} TooLargeForever(heap: Region, s: State, ops: Ops, l: Layout)
    requires Good(heap, s) && ValidLayout(l)
    requires forall i | 0 <= i < |s.Regions()| :: s.Regions()[i].size < SizeAlign(l).size
    ensures Alloc(Run(s, ops).free, l).0.None?
  {
    hide SizeAlign, Step, Run, Alloc, Holds;
    var later := Run(s, ops);
    NeverMerges(heap, s, ops);
    AllocFailsIff(later.free, l);
    forall i: nat, at: nat | i < |later.free|
      ensures !Holds(later.free[i], SizeAlign(l).size, SizeAlign(l).align, at)
    {
      assert later.Regions()[i] == later.free[i];
      assert WithinSome(later.Regions()[i], s.Regions());
      if Holds(later.free[i], SizeAlign(l).size, SizeAlign(l).align, at) {
        HoldsIsLarge(later.free[i], SizeAlign(l).size, SizeAlign(l).align, at);
      }
    }
  }

  lemma SmallLayouts()
    ensures ValidLayout(Layout(32, 8)) && ValidLayout(Layout(64, 8))
    ensures SizeAlign(Layout(32, 8)) == Layout(32, 8) && SizeAlign(Layout(64, 8)) == Layout(64, 8)
  {
    assert IsPow2(2) && IsPow2(4) && IsPow2(8);
    AlignUpLeast(32, 8);
    AlignUpLeast(64, 8);
  }

  /** A heap of 64 bytes that has been asked for two blocks of 32 and been given both back. */
  function Emptied(start: nat): State {
    SmallLayouts();
    var l := Layout(32, 8);
    Run(Start(Region(start, 64)), [Get(l), Get(l), Give(0), Give(0)])
  }

  lemma FirstGet(start: nat)
    requires start % 8 == 0 && ValidLayout(Layout(32, 8))
    ensures Step(Start(Region(start, 64)), Get(Layout(32, 8)))
         == State([Region(start + 32, 32)], [Block(start, Layout(32, 8))], [])
  {
    hide IsPow2, AlignUp, SizeAlign;
    SmallLayouts();
    AlignUpLeast(start, 8);
    assert AllocFromRegion(Region(start, 64), 32, 8) == Some(start);
    assert Without([Region(start, 64)], 0) == [];
  }

  lemma SecondGet(start: nat)
    requires start % 8 == 0 && ValidLayout(Layout(32, 8))
    ensures Step(State([Region(start + 32, 32)], [Block(start, Layout(32, 8))], []), Get(Layout(32, 8)))
         == State([], [Block(start, Layout(32, 8)), Block(start + 32, Layout(32, 8))], [])
  {
    hide IsPow2, AlignUp, SizeAlign;
    SmallLayouts();
    AlignUpLeast(start + 32, 8);
    assert AllocFromRegion(Region(start + 32, 32), 32, 8) == Some(start + 32);
    assert Without([Region(start + 32, 32)], 0) == [];
  }

  lemma EmptiedIs(start: nat)
    requires start % 8 == 0
    ensures Emptied(start) == State([Region(start + 32, 32), Region(start, 32)], [], [])
  {
    hide IsPow2, AlignUp, SizeAlign, Alloc;
    var l := Layout(32, 8);
    SmallLayouts();
    FirstGet(start);
    SecondGet(start);
    var two := State([], [Block(start, l), Block(start + 32, l)], []);
    var three := State([Region(start, 32)], [Block(start + 32, l)], []);
    assert Without(two.live, 0) == three.live && Without(three.live, 0) == [];
    assert Step(two, Give(0)) == three;
    RunFour(Start(Region(start, 64)), Get(l), Get(l), Give(0), Give(0));
  }

  lemma {:induction false} RunFour(s: State, a: Op, b: Op, c: Op, d: Op)
    requires forall op | op in [a, b, c, d] && op.Get? :: ValidLayout(op.layout)
    ensures Run(s, [a, b, c, d]) == Step(Step(Step(Step(s, a), b), c), d)
  {
    hide Step;
    assert [a, b, c, d][1..] == [b, c, d] && [b, c, d][1..] == [c, d] && [c, d][1..] == [d] && [d][1..] == [];
    assert Run(s, [a, b, c, d]) == Run(Step(s, a), [b, c, d]);
    assert Run(Step(s, a), [b, c, d]) == Run(Step(Step(s, a), b), [c, d]);
    var two := Step(Step(s, a), b);
    assert Run(two, [c, d]) == Run(Step(two, c), [d]);
    assert Run(Step(two, c), [d]) == Step(Step(two, c), d);
  }

  /** Such a heap is whole and nobody holds a block, but the 64 bytes it could give at the start it never gives
      again. */
  lemma {:induction false} EmptiedHeapStaysSplit(start: nat, ops: Ops)
    requires start % 8 == 0
    ensures ValidLayout(Layout(64, 8))
    ensures Alloc(Start(Region(start, 64)).free, Layout(64, 8)).0 == Some(start)
    ensures Emptied(start).live == [] && Bytes(Emptied(start).free) == 64
    ensures Alloc(Run(Emptied(start), ops).free, Layout(64, 8)).0.None?
  {
    hide SizeAlign, Emptied, Run, Alloc;
    SmallLayouts();
    EmptiedIs(start);
    assert Bytes([Region(start, 32)]) == 32 && [Region(start + 32, 32), Region(start, 32)][1..] == [Region(start, 32)];
    WholeFits(start);
    EmptiedGood(start);
    TooLargeForever(Region(start, 64), Emptied(start), ops, Layout(64, 8));
  }

  lemma WholeFits(start: nat)
    requires start % 8 == 0 && ValidLayout(Layout(64, 8))
    ensures Alloc(Start(Region(start, 64)).free, Layout(64, 8)).0 == Some(start)
  {
    hide AlignUp, IsPow2;
    SmallLayouts();
    AlignUpLeast(start, 8);
  }

  lemma EmptiedGood(start: nat)
    requires start % 8 == 0
    ensures Good(Region(start, 64), Emptied(start))
  {
    hide Good, IsPow2, Run;
    SmallLayouts();
    var l, heap := Layout(32, 8), Region(start, 64);
    StartGood(heap);
    RunGood(heap, Start(heap), [Get(l), Get(l), Give(0), Give(0)]);
  }

  // ----- The allocator object over a whole run

  /** Drives the object through a run: its assertions never fire, and its list is the one of the run. */
  method Drive(heap: Region, ops: Ops) returns (a: Allocator, live: Live, ghost s: State)
    requires GoodRegion(heap)
    ensures a.Valid() && s == Run(Start(heap), ops) && a.free == s.free && live == s.live
    ensures Good(heap, s)
  {
    a := new Allocator();
    a.Init(heap.start, heap.size);
    s, live := Start(heap), [];
    StartGood(heap);
    var n := 0;
    while n < |ops|
      invariant n <= |ops| && fresh(a) && a.Valid() && a.free == s.free && live == s.live && Good(heap, s)
      invariant Run(Start(heap), ops) == Run(s, ops[n..])
    {
      assert ops[n..][1..] == ops[n + 1..];
      live, s := DriveStep(heap, a, live, s, ops[n]);
      n := n + 1;
    }
  }

  method DriveStep(heap: Region, a: Allocator, live: Live, ghost s: State, op: Op)
    returns (later: Live, ghost next: State)
    requires a.Valid() && a.free == s.free && live == s.live && Good(heap, s)
    requires op.Get? ==> ValidLayout(op.layout)
    modifies a
    ensures a.Valid() && next == Step(s, op) && a.free == next.free && later == next.live && Good(heap, next)
  {
    hide SizeAlign, Alloc, Step, Count;
    next, later := Step(s, op), live;
    StepGood(heap, s, op);
    FreeDisjoint(heap, s);
    match op
    case Get(l) =>
      GetFacts(s, l);
      var r := a.Allocate(l);
      if r.Some? {
        later := live + [Block(r.value, l)];
      }
    case Give(i) =>
      GiveFacts(s, i);
      if i < |live| {
        NotFreeYet(heap, s, i);
        a.Deallocate(live[i].ptr, live[i].layout);
        later := Without(live, i);
      }
  }

  lemma NotFreeYet(heap: Region, s: State, i: nat)
    requires Good(heap, s) && i < |s.live|
    ensures forall k | 0 <= k < |s.free| :: s.free[k].start != s.live[i].ptr
  {
    hide SizeAlign, Count;
    HeldBlocksAreSafe(heap, s, i);
    SizeAlignFacts(s.live[i].layout);
  }
}
