/** The size-class allocator: nine last-in first-out lists over a fallback heap that is not modelled. */
module FixedSizeBlock {
  import opened HeapTypes
  import opened Wrappers

  const BLOCK_SIZES: seq<nat> := [8, 16, 32, 64, 128, 256, 512, 1024, 2048]
  const CLASSES: nat := |BLOCK_SIZES|

  // ----- Size classes

  function Position(sizes: seq<nat>, required: nat): (r: Option<nat>)
    ensures r.Some? ==> r.value < |sizes| && sizes[r.value] >= required
    ensures forall k | 0 <= k < (if r.Some? then r.value else |sizes|) :: sizes[k] < required
  {
    if sizes == [] then None
    else if sizes[0] >= required then Some(0)
    else
      match Position(sizes[1..], required)
      case None => None
      case Some(i) => Some(i + 1)
  }

  function Required(l: Layout): nat {
    if l.size > l.align then l.size else l.align
  }

  /** The first, and so the smallest, class that is as large as the size and the alignment. */
  function ListIndex(l: Layout): (r: Option<nat>)
    ensures r.Some? ==> r.value < CLASSES && BLOCK_SIZES[r.value] >= Required(l)
    ensures r.Some? && r.value > 0 ==> BLOCK_SIZES[r.value - 1] < Required(l)
    ensures r.None? <==> Required(l) > 2048
  {
    assert BLOCK_SIZES[8] == 2048;
    Position(BLOCK_SIZES, Required(l))
  }

  /** Nine classes, of 8 to 2048 bytes, each twice the one before; a layout goes to the least class that is as
      large as its size and its alignment. */
  lemma ListIndexIff(l: Layout, i: nat)
    ensures |BLOCK_SIZES| == 9 && BLOCK_SIZES[0] == 8
    ensures forall k | 0 <= k < 8 :: BLOCK_SIZES[k + 1] == 2 * BLOCK_SIZES[k]
    ensures ListIndex(l) == Some(i) <==>
            && i < 9 && l.size <= BLOCK_SIZES[i] && l.align <= BLOCK_SIZES[i]
            && (forall k | 0 <= k < i :: l.size > BLOCK_SIZES[k] || l.align > BLOCK_SIZES[k])
  {
  }

  /** The layout the program asks the fallback heap for. */
  function FallbackLayout(l: Layout): Layout {
    match ListIndex(l)
    case Some(i) => Layout(BLOCK_SIZES[i], BLOCK_SIZES[i])
    case None => l
  }

  datatype Block = Block(ptr: nat, layout: Layout) {
    function Held(): Region {
      Region(ptr, FallbackLayout(layout).size)
    }
  }

  type Lists = s: seq<seq<nat>> | |s| == CLASSES witness seq(CLASSES, i => [])

  /** The free lists, the blocks handed out and not freed, and the regions the fallback heap has handed out
      and not got back. */
  datatype State = State(lists: Lists, live: seq<Block>, taken: multiset<Region>)

  /** A call; `answer` is what the fallback heap would return if it were asked. */
  datatype Op = Get(layout: Layout, answer: Option<nat>) | Give(index: nat)

  // ----- What the allocator computes

  function PopOrAsk(s: State, l: Layout, answer: Option<nat>): (Option<nat>, State) {
    var i := ListIndex(l);
    if i.Some? && s.lists[i.value] != [] then
      var list := s.lists[i.value];
      (Some(list[0]), State(s.lists[i.value := list[1..]], s.live + [Block(list[0], l)], s.taken))
    else if answer.Some? then
      var b := Block(answer.value, l);
      (answer, State(s.lists, s.live + [b], s.taken + multiset{b.Held()}))
    else (None, s)
  }

  function GiveBack(s: State, k: nat): State
    requires k < |s.live|
  {
    var b := s.live[k];
    match ListIndex(b.layout)
    case Some(i) => State(s.lists[i := [b.ptr] + s.lists[i]], Without(s.live, k), s.taken)
    case None => State(s.lists, Without(s.live, k), s.taken - multiset{b.Held()})
  }

  function Step(s: State, op: Op): State {
    match op
    case Get(l, answer) => PopOrAsk(s, l, answer).1
    case Give(k) => if k < |s.live| then GiveBack(s, k) else s
  }

  function Run(s: State, ops: seq<Op>): State
    decreases |ops|
  {
    if ops == [] then s else Run(Step(s, ops[0]), ops[1..])
  }

  const START := State(seq(CLASSES, i => []), [], multiset{})

  // ----- The contract of the fallback heap

  /** The heap answers with aligned memory that is apart from everything it has handed out. */
  ghost predicate Honest(taken: multiset<Region>, want: Layout, answer: Option<nat>) {
    answer.Some? ==>
      && answer.value > 0 && want.align > 0 && answer.value % want.align == 0
      && forall q | q in taken :: Apart(Region(answer.value, want.size), q)
  }

  /** Legal calls with honest answers, all along a run. */
  ghost predicate Legal(s: State, ops: seq<Op>)
    decreases |ops|
  {
    ops == [] ||
    (&& (ops[0].Get? ==> ValidLayout(ops[0].layout)
                         && Honest(s.taken, FallbackLayout(ops[0].layout), ops[0].answer))
     && Legal(Step(s, ops[0]), ops[1..]))
  }

  // ----- The invariant

  function BlocksOf(list: seq<nat>, size: nat): (r: seq<Region>)
    ensures |r| == |list| && forall k | 0 <= k < |r| :: r[k] == Region(list[k], size)
  {
    seq(|list|, k requires 0 <= k < |list| => Region(list[k], size))
  }

  function HeldBy(live: seq<Block>): (r: seq<Region>)
    ensures |r| == |live| && forall k | 0 <= k < |r| :: r[k] == live[k].Held()
  {
    seq(|live|, k requires 0 <= k < |live| => live[k].Held())
  }

  /** The blocks on the first `n` lists. */
  function Listed(lists: Lists, n: nat): multiset<Region>
    requires n <= CLASSES
  {
    if n == 0 then multiset{}
    else Listed(lists, n - 1) + multiset(BlocksOf(lists[n - 1], BLOCK_SIZES[n - 1]))
  }

  /** No two regions share a byte. */
  ghost predicate PairwiseApart(m: multiset<Region>) {
    && (forall q, r | q in m && r in m && q != r :: Apart(q, r))
    && (forall q | q in m && m[q] > 1 :: q.size == 0)
  }

  ghost predicate ListsAligned(lists: Lists) {
    forall i, k | 0 <= i < CLASSES && 0 <= k < |lists[i]| :: lists[i][k] > 0 && lists[i][k] % BLOCK_SIZES[i] == 0
  }

  ghost predicate LiveAligned(live: seq<Block>) {
    forall k | 0 <= k < |live| ::
      && ValidLayout(live[k].layout) && live[k].ptr > 0
      && FallbackLayout(live[k].layout).align > 0 && live[k].ptr % FallbackLayout(live[k].layout).align == 0
  }

  /** What is in use or on a list is exactly what the fallback heap has handed out; none of it overlaps;
      list `i` holds blocks aligned to class `i`. */
  ghost predicate Good(s: State) {
    && s.taken == multiset(HeldBy(s.live)) + Listed(s.lists, CLASSES)
    && PairwiseApart(s.taken) && ListsAligned(s.lists) && LiveAligned(s.live)
  }

  lemma AddToBoth(u: multiset<Region>, x: multiset<Region>, v: multiset<Region>, y: multiset<Region>,
                  d: multiset<Region>)
    requires u + x == v + y
    ensures (u + d) + x == (v + d) + y
  {
    assert (u + d) + x == (u + x) + d;
    assert (v + d) + y == (v + y) + d;
  }

  lemma Swapped(u: multiset<Region>, x: seq<Region>, y: seq<Region>)
    ensures (u + multiset(x)) + multiset(y) == (u + multiset(y)) + multiset(x)
  {
  }

  /** What leaves one part of a sum and enters the other. */
  lemma Moved(held: multiset<Region>, u: multiset<Region>, v: multiset<Region>, x: multiset<Region>,
              before: multiset<Region>, after: multiset<Region>)
    requires u + before == v + after && before == x + after
    ensures (held + x) + u == held + v
  {
    assert (u + x) + after == v + after;
    forall r: Region ensures (u + x)[r] == v[r] {
      assert ((u + x) + after)[r] == (v + after)[r];
    }
  }

  lemma {:induction false} ListedElsewhere(lists: Lists, i: nat, list: seq<nat>, n: nat)
    requires n <= i < CLASSES
    ensures Listed(lists[i := list], n) == Listed(lists, n)
  {
    if n > 0 {
      ListedElsewhere(lists, i, list, n - 1);
    }
  }

  lemma {:induction false} ListedUpdate(lists: Lists, i: nat, list: seq<nat>, n: nat)
    requires i < n <= CLASSES
    ensures Listed(lists[i := list], n) + multiset(BlocksOf(lists[i], BLOCK_SIZES[i]))
         == Listed(lists, n) + multiset(BlocksOf(list, BLOCK_SIZES[i]))
  {
    if n == i + 1 {
      ListedElsewhere(lists, i, list, i);
      Swapped(Listed(lists, i), BlocksOf(list, BLOCK_SIZES[i]), BlocksOf(lists[i], BLOCK_SIZES[i]));
    } else {
      ListedUpdate(lists, i, list, n - 1);
      AddToBoth(Listed(lists[i := list], n - 1), multiset(BlocksOf(lists[i], BLOCK_SIZES[i])),
                Listed(lists, n - 1), multiset(BlocksOf(list, BLOCK_SIZES[i])),
                multiset(BlocksOf(lists[n - 1], BLOCK_SIZES[n - 1])));
    }
  }

  lemma MultisetWithout<T>(s: seq<T>, k: nat)
    requires k < |s|
    ensures multiset(Without(s, k)) == multiset(s) - multiset{s[k]}
    ensures multiset(s) == multiset(Without(s, k)) + multiset{s[k]}
  {
    assert s == s[..k] + ([s[k]] + s[k + 1..]);
    assert multiset(s) == multiset(s[..k]) + (multiset{s[k]} + multiset(s[k + 1..]));
  }

  lemma BlocksOfCons(ptr: nat, list: seq<nat>, size: nat)
    ensures multiset(BlocksOf([ptr] + list, size)) == multiset{Region(ptr, size)} + multiset(BlocksOf(list, size))
  {
    assert BlocksOf([ptr] + list, size) == [Region(ptr, size)] + BlocksOf(list, size);
  }

  lemma HeldByAppend(live: seq<Block>, b: Block)
    ensures multiset(HeldBy(live + [b])) == multiset(HeldBy(live)) + multiset{b.Held()}
  {
    assert HeldBy(live + [b]) == HeldBy(live) + [b.Held()];
  }

  lemma HeldByWithout(live: seq<Block>, k: nat)
    requires k < |live|
    ensures multiset(HeldBy(live)) == multiset(HeldBy(Without(live, k))) + multiset{live[k].Held()}
  {
    assert HeldBy(Without(live, k)) == Without(HeldBy(live), k);
    MultisetWithout(HeldBy(live), k);
  }

  /** Taking a block off a list, or putting it on, moves it between the list and the caller. */
  lemma MoveKeepsRegions(lists: Lists, live: seq<Block>, i: nat, list: seq<nat>, b: Block)
    requires i < CLASSES && b.Held() == Region(b.ptr, BLOCK_SIZES[i]) && lists[i] == [b.ptr] + list
    ensures multiset(HeldBy(live + [b])) + Listed(lists[i := list], CLASSES)
         == multiset(HeldBy(live)) + Listed(lists, CLASSES)
  {
    hide Listed;
    ListedUpdate(lists, i, list, CLASSES);
    BlocksOfCons(b.ptr, list, BLOCK_SIZES[i]);
    HeldByAppend(live, b);
    Moved(multiset(HeldBy(live)), Listed(lists[i := list], CLASSES), Listed(lists, CLASSES), multiset{b.Held()},
          multiset(BlocksOf(lists[i], BLOCK_SIZES[i])), multiset(BlocksOf(list, BLOCK_SIZES[i])));
  }

  lemma PopGood(s: State, l: Layout, i: nat)
    requires Good(s) && ValidLayout(l) && ListIndex(l) == Some(i) && s.lists[i] != []
    ensures Good(PopOrAsk(s, l, None).1)
  {
    hide Listed, PairwiseApart;
    var list, b := s.lists[i], Block(s.lists[i][0], l);
    assert list == [b.ptr] + list[1..];
    MoveKeepsRegions(s.lists, s.live, i, list[1..], b);
  }

  lemma Added(taken: multiset<Region>, r: Region)
    requires PairwiseApart(taken) && forall q | q in taken :: Apart(r, q)
    ensures PairwiseApart(taken + multiset{r})
  {
  }

  lemma AskGood(s: State, l: Layout, answer: nat)
    requires Good(s) && ValidLayout(l) && Honest(s.taken, FallbackLayout(l), Some(answer))
    ensures Good(State(s.lists, s.live + [Block(answer, l)], s.taken + multiset{Block(answer, l).Held()}))
  {
    hide Listed, FallbackLayout, PairwiseApart;
    var b := Block(answer, l);
    HeldByAppend(s.live, b);
    Added(s.taken, b.Held());
  }

  lemma GiveToListGood(s: State, k: nat, i: nat)
    requires Good(s) && k < |s.live| && ListIndex(s.live[k].layout) == Some(i)
    ensures Good(GiveBack(s, k))
  {
    hide Listed, PairwiseApart, ListsAligned, LiveAligned;
    var b, left := s.live[k], Without(s.live, k);
    var lists := s.lists[i := [b.ptr] + s.lists[i]];
    PutAligned(s.lists, s.live, i, k);
    assert lists[i := s.lists[i]] == s.lists;
    HeldByWithout(s.live, k);
    HeldByAppend(left, b);
    MoveKeepsRegions(lists, left, i, s.lists[i], b);
    LiveAlignedWithout(s.live, k);
  }

  lemma PutAligned(lists: Lists, live: seq<Block>, i: nat, k: nat)
    requires ListsAligned(lists) && LiveAligned(live) && k < |live| && ListIndex(live[k].layout) == Some(i)
    ensures ListsAligned(lists[i := [live[k].ptr] + lists[i]])
    ensures live[k].Held() == Region(live[k].ptr, BLOCK_SIZES[i])
  {
  }

  lemma LiveAlignedWithout(live: seq<Block>, k: nat)
    requires LiveAligned(live) && k < |live|
    ensures LiveAligned(Without(live, k))
  {
  }

  lemma Removed(held: multiset<Region>, left: multiset<Region>, r: Region, listed: multiset<Region>,
                taken: multiset<Region>)
    requires held == left + multiset{r} && taken == held + listed && PairwiseApart(taken)
    ensures r in taken && taken - multiset{r} == left + listed && PairwiseApart(taken - multiset{r})
  {
  }

  /** Memory too large for a class goes back to the fallback heap, which did hand it out. */
  lemma GiveToHeapGood(s: State, k: nat)
    requires Good(s) && k < |s.live| && ListIndex(s.live[k].layout).None?
    ensures Good(GiveBack(s, k)) && s.live[k].Held() in s.taken
  {
    hide Listed, PairwiseApart;
    HeldByWithout(s.live, k);
    LiveAlignedWithout(s.live, k);
    Removed(multiset(HeldBy(s.live)), multiset(HeldBy(Without(s.live, k))), s.live[k].Held(),
            Listed(s.lists, CLASSES), s.taken);
  }

  /** Over every history of legal calls with an honest fallback heap, the invariant holds. */
  lemma {:induction false} RunGood(s: State, ops: seq<Op>)
    requires Good(s) && Legal(s, ops)
    ensures Good(Run(s, ops))
    decreases |ops|
  {
    hide Good, Honest, FallbackLayout, ListIndex;
    if ops != [] {
      match ops[0] {
        case Get(l, answer) =>
          var i := ListIndex(l);
          if i.Some? && s.lists[i.value] != [] {
            PopGood(s, l, i.value);
          } else if answer.Some? {
            AskGood(s, l, answer.value);
          }
        case Give(k) =>
          if k < |s.live| {
            var i := ListIndex(s.live[k].layout);
            if i.Some? {
              GiveToListGood(s, k, i.value);
            } else {
              GiveToHeapGood(s, k);
            }
          }
      }
      RunGood(Step(s, ops[0]), ops[1..]);
    }
  }

  lemma StartGood()
    ensures Good(START)
  {
    NothingListed(CLASSES);
  }

  lemma {:induction false} NothingListed(n: nat)
    requires n <= CLASSES
    ensures Listed(START.lists, n) == multiset{}
  {
    if n > 0 {
      NothingListed(n - 1);
    }
  }

  // ----- What the invariant gives to callers

  lemma {:induction false} Pow2Divides(a: nat, b: nat)
    requires IsPow2(a) && IsPow2(b) && a <= b
    ensures b % a == 0
  {
    if a > 1 {
      Pow2Divides(a / 2, b / 2);
      var q := b / 2 / (a / 2);
      assert b / 2 == q * (a / 2);
      assert b == q * a by {
        assert q * (a / 2) * 2 == q * (a / 2 * 2);
      }
      ModOfMultiple(q, a);
    }
  }

  lemma ClassIsPow2(i: nat)
    requires i < CLASSES
    ensures IsPow2(BLOCK_SIZES[i])
  {
  }

  lemma {:induction false} OnList(lists: Lists, i: nat, k: nat, n: nat)
    requires i < n <= CLASSES && k < |lists[i]|
    ensures Region(lists[i][k], BLOCK_SIZES[i]) in Listed(lists, n)
  {
    if n == i + 1 {
      assert BlocksOf(lists[i], BLOCK_SIZES[i])[k] in multiset(BlocksOf(lists[i], BLOCK_SIZES[i]));
    } else {
      OnList(lists, i, k, n - 1);
    }
  }

  lemma TwiceIn<T>(s: seq<T>, j: nat, k: nat)
    requires j < k < |s| && s[j] == s[k]
    ensures multiset(s)[s[j]] > 1
  {
    MultisetWithout(s, k);
    assert Without(s, k)[j] == s[j];
    assert s[j] in multiset(Without(s, k));
  }

  /** A held block has the requested alignment and at least the requested size, shares no byte with another
      held block, and shares none with a block on a free list. */
  lemma HeldBlocksAreSafe(s: State, k: nat)
    requires Good(s) && k < |s.live|
    ensures var b := s.live[k];
      && b.layout.align > 0 && b.ptr % b.layout.align == 0 && b.layout.size <= b.Held().size
      && (forall j | 0 <= j < |s.live| && j != k :: Apart(b.Held(), s.live[j].Held()))
      && (forall i, j | 0 <= i < CLASSES && 0 <= j < |s.lists[i]| ::
            Apart(b.Held(), Region(s.lists[i][j], BLOCK_SIZES[i])))
  {
    hide Listed, IsPow2, ListIndex;
    BlockFits(s.live[k]);
    forall j | 0 <= j < |s.live| && j != k
      ensures Apart(s.live[k].Held(), s.live[j].Held())
    {
      HeldApart(s, if j < k then j else k, if j < k then k else j);
    }
    forall i, j | 0 <= i < CLASSES && 0 <= j < |s.lists[i]|
      ensures Apart(s.live[k].Held(), Region(s.lists[i][j], BLOCK_SIZES[i]))
    {
      HeldApartFromListed(s, k, i, j);
    }
  }

  lemma BlockFits(b: Block)
    requires ValidLayout(b.layout)
    requires FallbackLayout(b.layout).align > 0 && b.ptr % FallbackLayout(b.layout).align == 0
    ensures b.layout.align > 0 && b.ptr % b.layout.align == 0 && b.layout.size <= b.Held().size
  {
    hide IsPow2, ListIndex;
    match ListIndex(b.layout)
    case Some(i) =>
      ClassIsPow2(i);
      PositivePow2(b.layout.align);
      Pow2Divides(b.layout.align, BLOCK_SIZES[i]);
      MultipleOfFactor(b.ptr, BLOCK_SIZES[i], b.layout.align);
    case None =>
  }

  lemma {:induction false} PositivePow2(a: nat)
    requires IsPow2(a)
    ensures a > 0
  {
  }

  lemma MultipleOfFactor(n: nat, b: nat, a: nat)
    requires a > 0 && b > 0 && n % b == 0 && b % a == 0
    ensures n % a == 0
  {
    assert n == n / b * b && b == b / a * a;
    assert n == (n / b * (b / a)) * a by {
      assert n / b * (b / a * a) == (n / b * (b / a)) * a;
    }
    ModOfMultiple(n / b * (b / a), a);
  }

  lemma HeldApart(s: State, j: nat, k: nat)
    requires Good(s) && j < k < |s.live|
    ensures Apart(s.live[j].Held(), s.live[k].Held()) && Apart(s.live[k].Held(), s.live[j].Held())
  {
    hide Listed, FallbackLayout;
    var rs := HeldBy(s.live);
    assert rs[j] in multiset(rs) && rs[k] in multiset(rs);
    if rs[j] == rs[k] {
      TwiceIn(rs, j, k);
    }
  }

  lemma HeldApartFromListed(s: State, k: nat, i: nat, j: nat)
    requires Good(s) && k < |s.live| && i < CLASSES && j < |s.lists[i]|
    ensures Apart(s.live[k].Held(), Region(s.lists[i][j], BLOCK_SIZES[i]))
  {
    hide Listed, FallbackLayout;
    var r, q := s.live[k].Held(), Region(s.lists[i][j], BLOCK_SIZES[i]);
    assert r == HeldBy(s.live)[k];
    assert r in multiset(HeldBy(s.live));
    OnList(s.lists, i, j, CLASSES);
    if r == q {
      assert s.taken[r] > 1;
    }
  }

  // ----- Reuse

  /** A block given back is the next one handed out for any layout of its class, whatever the fallback heap
      would say, and the lists are then as they were. */
  lemma LastInFirstOut(s: State, k: nat, l: Layout, answer: Option<nat>)
    requires k < |s.live| && ListIndex(l).Some? && ListIndex(l) == ListIndex(s.live[k].layout)
    ensures var (r, next) := PopOrAsk(GiveBack(s, k), l, answer);
      && r == Some(s.live[k].ptr) && next.lists == s.lists && next.taken == s.taken
      && next.live == Without(s.live, k) + [Block(s.live[k].ptr, l)]
  {
  }

  function Max(a: nat, b: nat): nat {
    if a > b then a else b
  }

  function HeldIn(live: seq<Block>, i: nat): nat {
    if live == [] then 0 else (if ListIndex(live[0].layout) == Some(i) then 1 else 0) + HeldIn(live[1..], i)
  }

  /** How many blocks of class `i` exist: in use and on the list. */
  function BlocksIn(s: State, i: nat): nat
    requires i < CLASSES
  {
    HeldIn(s.live, i) + |s.lists[i]|
  }

  /** The largest number of class-`i` blocks in use at one time in a run. */
  function Peak(s: State, ops: seq<Op>, i: nat): nat
    decreases |ops|
  {
    if ops == [] then HeldIn(s.live, i) else Max(HeldIn(s.live, i), Peak(Step(s, ops[0]), ops[1..], i))
  }

  lemma {:induction false} HeldInSum(a: seq<Block>, b: seq<Block>, i: nat)
    ensures HeldIn(a + b, i) == HeldIn(a, i) + HeldIn(b, i)
  {
    if a == [] {
      assert a + b == b;
    } else {
      assert (a + b)[1..] == a[1..] + b;
      HeldInSum(a[1..], b, i);
    }
  }

  lemma {:induction false} HeldInOne(b: Block, i: nat)
    ensures HeldIn([b], i) == if ListIndex(b.layout) == Some(i) then 1 else 0
  {
  }

  lemma {:induction false} HeldInWithout(live: seq<Block>, k: nat, i: nat)
    requires k < |live|
    ensures HeldIn(live, i) == HeldIn(Without(live, k), i) + if ListIndex(live[k].layout) == Some(i) then 1 else 0
  {
    assert live == live[..k] + ([live[k]] + live[k + 1..]);
    HeldInSum(live[..k], [live[k]] + live[k + 1..], i);
    HeldInSum([live[k]], live[k + 1..], i);
    HeldInSum(live[..k], live[k + 1..], i);
    HeldInOne(live[k], i);
  }

  lemma {:induction false} StepBlocks(s: State, op: Op, i: nat)
    requires i < CLASSES
    ensures BlocksIn(Step(s, op), i) == Max(BlocksIn(s, i), HeldIn(Step(s, op).live, i))
  {
    hide ListIndex, HeldIn, FallbackLayout;
    match op
    case Get(l, answer) =>
      var p := ListIndex(l);
      var ptr := if p.Some? && s.lists[p.value] != [] then s.lists[p.value][0] else answer.GetOr(0);
      HeldInSum(s.live, [Block(ptr, l)], i);
      HeldInOne(Block(ptr, l), i);
    case Give(k) =>
      if k < |s.live| {
        HeldInWithout(s.live, k, i);
      }
  }

  /** A class grows to the most blocks it ever had in use at once, and keeps them: memory of a class is
      never given back to the fallback heap. */
  lemma {:induction false} ClassMemoryIsPeak(s: State, ops: seq<Op>, i: nat)
    requires i < CLASSES
    ensures BlocksIn(Run(s, ops), i) == Max(BlocksIn(s, i), Peak(s, ops, i))
    decreases |ops|
  {
    hide Step, HeldIn;
    if ops != [] {
      StepBlocks(s, ops[0], i);
      ClassMemoryIsPeak(Step(s, ops[0]), ops[1..], i);
    }
  }

  // ----- The allocator itself: list nodes written into the free blocks

  /** The chain of nodes that starts at `head`. */
  ghost predicate Linked(head: Option<nat>, next: map<nat, Option<nat>>, list: seq<nat>)
    decreases |list|
  {
    if list == [] then head == None
    else head == Some(list[0]) && list[0] in next && Linked(next[list[0]], next, list[1..])
  }

  lemma {:induction false} LinkedElsewhere(head: Option<nat>, next: map<nat, Option<nat>>, list: seq<nat>, at: nat,
                                           link: Option<nat>)
    requires Linked(head, next, list) && at !in list
    ensures Linked(head, next[at := link], list)
    decreases |list|
  {
    if list != [] {
      LinkedElsewhere(next[list[0]], next, list[1..], at, link);
    }
  }

  /** No block is on the lists twice. */
  ghost predicate Distinct(lists: Lists) {
    && (forall i, j, p | 0 <= i < j < CLASSES && p in lists[i] :: p !in lists[j])
    && (forall i, k, m | 0 <= i < CLASSES && 0 <= k < m < |lists[i]| :: lists[i][k] != lists[i][m])
  }

  ghost predicate AllLinked(heads: seq<Option<nat>>, next: map<nat, Option<nat>>, lists: Lists) {
    |heads| == CLASSES && forall i | 0 <= i < CLASSES :: Linked(heads[i], next, lists[i])
  }

  lemma PopLinked(heads: seq<Option<nat>>, next: map<nat, Option<nat>>, lists: Lists, i: nat)
    requires AllLinked(heads, next, lists) && Distinct(lists) && i < CLASSES && lists[i] != []
    ensures heads[i] == Some(lists[i][0]) && lists[i][0] in next
    ensures AllLinked(heads[i := next[lists[i][0]]], next[lists[i][0] := None], lists[i := lists[i][1..]])
    ensures Distinct(lists[i := lists[i][1..]])
  {
    var p, rest := lists[i][0], lists[i := lists[i][1..]];
    forall j | 0 <= j < CLASSES
      ensures Linked(heads[i := next[p]][j], next[p := None], rest[j])
    {
      assert p in lists[i];
      assert p !in rest[j];
      LinkedElsewhere(heads[i := next[p]][j], next, rest[j], p, None);
    }
    assert forall q | q in rest[i] :: q in lists[i];
  }

  lemma PushLinked(heads: seq<Option<nat>>, next: map<nat, Option<nat>>, lists: Lists, i: nat, p: nat)
    requires AllLinked(heads, next, lists) && Distinct(lists) && i < CLASSES
    requires forall j | 0 <= j < CLASSES :: p !in lists[j]
    ensures AllLinked(heads[i := Some(p)], next[p := heads[i]], lists[i := [p] + lists[i]])
    ensures Distinct(lists[i := [p] + lists[i]])
  {
    var more := lists[i := [p] + lists[i]];
    forall j | 0 <= j < CLASSES
      ensures Linked(heads[i := Some(p)][j], next[p := heads[i]], more[j])
    {
      LinkedElsewhere(heads[j], next, lists[j], p, heads[i]);
      assert more[i][1..] == lists[i];
    }
  }

  class Allocator {
    var heads: array<Option<nat>>
    var next: map<nat, Option<nat>>
    ghost var lists: Lists

    ghost predicate Valid()
      reads this, heads
    {
      AllLinked(heads[..], next, lists) && Distinct(lists)
    }

    constructor ()
      ensures Valid() && fresh(heads) && lists == START.lists
    {
      heads := new Option<nat>[CLASSES](_ => None);
      next, lists := map[], START.lists;
    }

    /** `answer` is what the fallback heap returns; `asked` tells whether it was called. */
    method Alloc(l: Layout, answer: Option<nat>) returns (r: Option<nat>, asked: bool)
      requires Valid()
      modifies this, heads
      ensures Valid() && heads == old(heads)
      ensures asked <==> ListIndex(l).None? || old(lists)[ListIndex(l).value] == []
      ensures forall s: State | s.lists == old(lists) ::
        r == PopOrAsk(s, l, answer).0 && lists == PopOrAsk(s, l, answer).1.lists
    {
      hide Linked, Distinct, ListIndex;
      var i := ListIndex(l);
      if i.Some? && heads[i.value].Some? {
        var node := heads[i.value].value;
        EmptyIff(heads[..], next, lists, i.value);
        PopLinked(heads[..], next, lists, i.value);
        heads[i.value], next := next[node], next[node := None];
        lists := lists[i.value := lists[i.value][1..]];
        return Some(node), false;
      }
      if i.Some? {
        EmptyIff(heads[..], next, lists, i.value);
      }
      return answer, true;
    }

    /** A block of a class must not be on a list already. */
    method Dealloc(ptr: nat, l: Layout) returns (toHeap: bool)
      requires Valid() && (ListIndex(l).Some? ==> forall j | 0 <= j < CLASSES :: ptr !in lists[j])
      modifies this, heads
      ensures Valid() && heads == old(heads) && (toHeap <==> ListIndex(l).None?)
      ensures lists == match ListIndex(l)
                       case Some(i) => old(lists)[i := [ptr] + old(lists)[i]]
                       case None => old(lists)
    {
      hide Linked, Distinct, ListIndex;
      var i := ListIndex(l);
      if i.None? {
        return true;
      }
      PushLinked(heads[..], next, lists, i.value, ptr);
      next := next[ptr := heads[i.value]];
      heads[i.value] := Some(ptr);
      lists := lists[i.value := [ptr] + lists[i.value]];
      return false;
    }
  }

  lemma EmptyIff(heads: seq<Option<nat>>, next: map<nat, Option<nat>>, lists: Lists, i: nat)
    requires AllLinked(heads, next, lists) && i < CLASSES
    ensures heads[i].None? <==> lists[i] == []
  {
  }

  lemma NotListedYet(s: State, k: nat)
    requires Good(s) && k < |s.live| && ListIndex(s.live[k].layout).Some?
    ensures forall j | 0 <= j < CLASSES :: s.live[k].ptr !in s.lists[j]
  {
    hide Good, ListIndex;
    forall j | 0 <= j < CLASSES
      ensures s.live[k].ptr !in s.lists[j]
    {
      HeldBlocksAreSafe(s, k);
      if m :| 0 <= m < |s.lists[j]| && s.lists[j][m] == s.live[k].ptr {
        assert false;
      }
    }
  }

  /** Drives the object through a legal run: its lists are those of the run, and it never gives the fallback
      heap memory that did not come from there. */
  method Drive(ops: seq<Op>) returns (a: Allocator, live: seq<Block>, ghost s: State)
    requires Legal(START, ops)
    ensures a.Valid() && s == Run(START, ops) && a.lists == s.lists && live == s.live && Good(s)
  {
    hide Good, Legal, Run, Step, Linked, Distinct;
    a := new Allocator();
    live, s := [], START;
    StartGood();
    assert ops[0..] == ops;
    var n := 0;
    while n < |ops|
      invariant n <= |ops| && fresh(a) && fresh(a.heads) && a.Valid() && a.lists == s.lists && live == s.live
      invariant Good(s) && Legal(s, ops[n..]) && Run(START, ops) == Run(s, ops[n..])
    {
      NextCall(s, ops, n);
      live, s := DriveStep(a, live, s, ops[n]);
      n := n + 1;
    }
    NoMoreCalls(s, ops[n..]);
  }

  lemma {:induction false} NextCall(s: State, ops: seq<Op>, n: nat)
    requires n < |ops| && Good(s) && Legal(s, ops[n..])
    ensures var next := Step(s, ops[n]);
      Good(next) && Legal(next, ops[n + 1..]) && Run(s, ops[n..]) == Run(next, ops[n + 1..])
  {
    hide Good, Honest, FallbackLayout, ListIndex, Step;
    assert ops[n..][1..] == ops[n + 1..] && ops[n..][0] == ops[n];
    assert [ops[n]][1..] == [] && Legal(Step(s, ops[n]), []);
    assert Legal(s, [ops[n]]) && Run(s, [ops[n]]) == Step(s, ops[n]);
    RunGood(s, [ops[n]]);
  }

  lemma {:induction false} NoMoreCalls(s: State, ops: seq<Op>)
    requires ops == []
    ensures Run(s, ops) == s
  {
  }

  method DriveStep(a: Allocator, live: seq<Block>, ghost s: State, op: Op)
    returns (later: seq<Block>, ghost next: State)
    requires a.Valid() && a.lists == s.lists && live == s.live && Good(s)
    modifies a, a.heads
    ensures a.Valid() && next == Step(s, op) && a.lists == next.lists && later == next.live
    ensures a.heads == old(a.heads)
  {
    hide Good, ListIndex, Linked, Distinct;
    next, later := Step(s, op), live;
    match op
    case Get(l, answer) =>
      var r, asked := a.Alloc(l, answer);
      assert r == PopOrAsk(s, l, answer).0;
      if r.Some? {
        later := live + [Block(r.value, l)];
      }
    case Give(k) =>
      if k < |live| {
        if ListIndex(live[k].layout).Some? {
          NotListedYet(s, k);
        }
        var toHeap := a.Dealloc(live[k].ptr, live[k].layout);
        later := Without(live, k);
      }
  }
}
