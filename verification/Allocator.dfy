/**
 malloc.c, single-threaded, on heap chunks. The lock functions do nothing when the process has
 one thread, so a lock section is a plain sequence of statements; `lock_bin` keeps its other
 job, the lazy initialisation of a bin. The answer of `__expand_heap` is a parameter.
 */
module Allocator {
  import opened Basics
  import opened SizeClass
  import opened Bits
  import opened HeapShape
  import opened HeapSteps
  import opened HeapOps
  import opened HeapGrow
  import opened HeapFacts
  import opened Coalescing

  const DONTCARE := 16
  const RECLAIM := 163840
  const PAGE_SIZE := 4096
  const PTRDIFF_MAX := 0x7fff_ffff_ffff_ffff

  /** The system's answer to a request for heap memory. */
  datatype Grant = Refused | Granted(p: int, n: int)

  /** A grant is aligned memory of at least the requested size that was not mapped before. */
  predicate Honest(os: Grant, m: Memory, request: int) {
    os.Granted? ==>
      && os.n >= request && os.n % SIZE_ALIGN == 0 && os.p % SIZE_ALIGN == 0
      && STATIC_TOP < os.p && os.p + os.n < LIMIT
      && forall a :: a in m ==> a < os.p || os.p + os.n <= a
  }

  /** No memory is given up, and none is used but what the system granted. */
  ghost predicate OnlyGrows(m: Memory, m': Memory, os: Grant) {
    && (forall a :: a in m ==> a in m')
    && (forall a :: a in m' ==> a in m || (os.Granted? && os.p <= a < os.p + os.n))
  }

  /** `adjust_size`: None stands for ENOMEM. */
  datatype Adjusted = TooLarge | Adjusted(n: nat)

  function AdjustSize(n: nat): Adjusted
    requires n < WORD
  {
    if (n - 1) % WORD > PTRDIFF_MAX - SIZE_ALIGN - PAGE_SIZE then
      if n != 0 then TooLarge else Adjusted(SIZE_ALIGN)
    else
      Adjusted(And((n + OVERHEAD + SIZE_ALIGN - 1) % WORD, NegPow2(5, 64)))
  }

  /** The adjusted size is the least multiple of the alignment that holds the request and its header. */
  lemma AdjustSizeMeaning(n: nat)
    requires n < WORD
    ensures AdjustSize(n).TooLarge? <==> n > PTRDIFF_MAX - SIZE_ALIGN - PAGE_SIZE + 1
    ensures AdjustSize(n).Adjusted? ==> var a := AdjustSize(n).n;
              && a % SIZE_ALIGN == 0 && n + OVERHEAD <= a < LIMIT
              && (a - SIZE_ALIGN < n + OVERHEAD || a == SIZE_ALIGN)
  {
    if n != 0 && n <= PTRDIFF_MAX - SIZE_ALIGN - PAGE_SIZE + 1 {
      SmallMod(n - 1, WORD);
      SmallMod(n + OVERHEAD + SIZE_ALIGN - 1, WORD);
      RoundUp(n + OVERHEAD);
    } else if n != 0 {
      SmallMod(n - 1, WORD);
    }
  }

  /** `(x + SIZE_ALIGN - 1) & SIZE_MASK` is the least multiple of the alignment that is at least `x`. */
  lemma RoundUp(x: nat)
    requires x < LIMIT
    ensures var a := And(x + SIZE_ALIGN - 1, NegPow2(5, 64)); a % SIZE_ALIGN == 0 && x <= a < x + SIZE_ALIGN
  {
    WordPowers();
    assert Pow2(5) == 32;
    AndHighMask(x + SIZE_ALIGN - 1, 5, 64);
    RoundDown(x + SIZE_ALIGN - 1);
  }

  lemma RoundDown(y: nat)
    ensures (y - y % SIZE_ALIGN) % SIZE_ALIGN == 0
  {}

  lemma MultipleBetween(n: int, a: int)
    requires n % SIZE_ALIGN == 0 && a % SIZE_ALIGN == 0 && n <= a < n + SIZE_ALIGN
    ensures a == n
  {}

  predicate UnbinReady(m: Memory, c: int) {
    c in m && m[c].prev in m && m[c].next in m && c + SizeOf(m[c].csize) in m
  }

  /** The writes of `unbin`: two links, then the in-use bits of the chunk and of its footer. */
  function UnbinMem(m: Memory, c: int): Memory
    requires UnbinReady(m, c)
  {
    var p, n := m[c].prev, m[c].next;
    var m1 := SetPrev(SetNext(m, p, n), n, p);
    var m2 := SetCsize(m1, c, MarkInUse(m1[c].csize));
    var next := c + SizeOf(m2[c].csize);
    SetPsize(m2, next, MarkInUse(m2[next].psize))
  }

  /** They are the unlinking followed by the flag change. */
  lemma UnbinWrites(m: Memory, c: int, n: int)
    requires c in m && m[c].prev in m && m[c].next in m && c + n in m
    requires n % SIZE_ALIGN == 0 && m[c].csize == n && m[c + n].psize == n
    ensures UnbinReady(m, c) && UnbinMem(m, c) == FlagMem(UnlinkMem(m, c), c, Block(n, false))
    ensures UnbinMem(m, c).Keys == m.Keys
  {
    EvenSize(n);
  }

  predicate InsertReady(m: Memory, c: int, size: int, i: int) {
    c in m && c + size in m && Sentinel(i) in m && m[Sentinel(i)].prev in m
  }

  /** The last writes of `free`: the size words lose their in-use bit, then the chunk joins the tail of bin `i`. */
  function InsertMem(m: Memory, c: int, size: int, i: int): Memory
    requires InsertReady(m, c, size, i)
  {
    var m1 := SetPsize(SetCsize(m, c, size), c + size, size);
    var m2 := SetPrev(SetNext(m1, c, Sentinel(i)), c, m1[Sentinel(i)].prev);
    SetNext(SetPrev(m2, Sentinel(i), c), m1[Sentinel(i)].prev, c)
  }

  lemma InsertStep(m: Memory, binmap: nat, s: Shape, c: int, i: int)
    requires Inv(m, s) && Indexed(binmap, s) && c in s.blocks && !s.blocks[c].free
    requires 0 <= s.blocks[c].size < WORD && i == BinIndex(s.blocks[c].size) && 0 <= i < 64
    requires c in m && InUse(m[c].psize)
    requires c + s.blocks[c].size in m && InUse(m[c + s.blocks[c].size].csize)
    requires Sentinel(i) in m && m[Sentinel(i)].next != 0
    ensures |s.bins| == 64 && InsertReady(m, c, s.blocks[c].size, i)
    ensures var m' := InsertMem(m, c, s.blocks[c].size, i);
            Inv(m', InsertShape(s, c, i)) && KeepsPayloads(m, m', Live(s) - {c}) && m'.Keys == m.Keys
    ensures Live(InsertShape(s, c, i)) == Live(s) - {c}
    ensures Indexed(if And(binmap, Pow2(i)) == 0 then Or(binmap, Pow2(i)) else binmap, InsertShape(s, c, i))
    ensures InsertShape(s, c, i).blocks[c] == Block(s.blocks[c].size, true)
    ensures SameEdges(s, InsertShape(s, c, i))
  {
    hide Inv, KeepsPayloads, Live, Indexed, BinIndex, InUse;
    BinCount(m, s);
    InsertInv(m, s, c, i);
    InsertKeeps(m, s, c, i);
    LiveInsert(s, c, i);
    InsertWrites(m, c, s.blocks[c].size, i);
    IndexedSet(binmap, s, InsertShape(s, c, i), i, s.bins[i] + [c]);
  }

  lemma InsertWrites(m: Memory, c: int, size: int, i: int)
    requires c in m && c + size in m && Sentinel(i) in m
    requires var m1 := FlagMem(m, c, Block(size, true)); Sentinel(i) in m1 && m1[Sentinel(i)].prev in m1
    ensures InsertReady(m, c, size, i)
    ensures InsertMem(m, c, size, i) == AppendMem(FlagMem(m, c, Block(size, true)), c, Sentinel(i))
    ensures InsertMem(m, c, size, i).Keys == m.Keys
  {}

  /** From the start of `free` to its end, through the join, the bin initialisation and the insertion. */
  lemma InsertKeepsAll(m0: Memory, m1: Memory, m2: Memory, m3: Memory, live0: map<int, int>, live: map<int, int>, c: int)
    requires KeepsPayloads(m0, m1, live0) && KeepsPayloads(m1, m2, live) && KeepsPayloads(m2, m3, live - {c})
    requires forall d :: d in live - {c} ==> d in live0 && live0[d] == live[d]
    ensures KeepsPayloads(m0, m3, live - {c})
  {
    hide KeepsPayloads;
    KeepsFewer(m0, m1, live - {c}, live0);
    KeepsFewer(m1, m2, live - {c}, live);
    KeepsTransitive2(m0, m1, m2, live - {c}, live - {c});
    KeepsTransitive2(m0, m2, m3, live - {c}, live - {c});
  }

  /** Memory after the kernel dropped the bytes [a, b). */
  function ZeroPages(m: Memory, a: int, b: int): Memory {
    map g | g in m :: Chunk(Zeroed(g, a, b, m[g].psize), Zeroed(g + 8, a, b, m[g].csize),
                            Zeroed(g + 16, a, b, m[g].next), Zeroed(g + 24, a, b, m[g].prev))
  }

  lemma ZeroedWords(m: Memory, a: int, b: int)
    ensures ZeroBetween(m, ZeroPages(m, a, b), a, b)
  {}

  function Zeroed(address: int, a: int, b: int, word: int): int {
    if a <= address < b then 0 else word
  }

  /** The page range handed to madvise is not empty and stays clear of both chunk headers. */
  /** a is the first page boundary in the chunk above its links, and b the last one below its end. */
  predicate Pages(self: int, next: int, a: int, b: int) {
    && a % PAGE_SIZE == 0 && self + SIZE_ALIGN <= a < self + SIZE_ALIGN + PAGE_SIZE
    && b % PAGE_SIZE == 0 && next - SIZE_ALIGN - PAGE_SIZE < b <= next - SIZE_ALIGN
  }

  /** Every word from a to b is zero, and all others are as they were. */
  predicate ZeroBetween(m: Memory, m': Memory, a: int, b: int) {
    && m'.Keys == m.Keys
    && forall g :: g in m ==>
         && m'[g].psize == (if a <= g < b then 0 else m[g].psize)
         && m'[g].csize == (if a <= g + 8 < b then 0 else m[g].csize)
         && m'[g].next == (if a <= g + 16 < b then 0 else m[g].next)
         && m'[g].prev == (if a <= g + 24 < b then 0 else m[g].prev)
  }

  lemma PageDown(x: nat)
    requires x < 0x1_0000_0000_0000_0000
    ensures var a := And(x, NegPow2(12, 64)); a % PAGE_SIZE == 0 && x - PAGE_SIZE < a <= x
  {
    WordPowers();
    SmallPowers();
    AndHighMask(x, 12, 64);
    hide Pow2, And, NegPow2;
    DivModUnique(PAGE_SIZE * (x / PAGE_SIZE), PAGE_SIZE, x / PAGE_SIZE, 0);
  }

  lemma PageRange(self: int, next: int)
    requires 0 < self && next < LIMIT && next - self > RECLAIM
    ensures var a := And(self + SIZE_ALIGN + PAGE_SIZE - 1, NegPow2(12, 64));
            var b := And(next - SIZE_ALIGN, NegPow2(12, 64));
            self + SIZE_ALIGN <= a < b <= next - SIZE_ALIGN && Pages(self, next, a, b)
  {
    hide And, NegPow2;
    PageDown(self + SIZE_ALIGN + PAGE_SIZE - 1);
    PageDown(next - SIZE_ALIGN);
  }

  lemma ZeroInside(m: Memory, s: Shape, c: int, a: int, b: int)
    requires c in s.blocks && c in m && c + SIZE_ALIGN <= a && b <= c + s.blocks[c].size
    ensures WritesInside(m, ZeroPages(m, a, b), s, c) && ZeroPages(m, a, b).Keys == m.Keys
  {}

  lemma FreeNotLive(s: Shape, c: int)
    requires c in s.blocks && s.blocks[c].free
    ensures Live(s) - {c} == Live(s)
  {}

  lemma LiveBlock(m: Memory, s: Shape, c: int)
    requires Inv(m, s) && c in Live(s)
    ensures c in s.blocks && s.blocks[c] == Block(Live(s)[c], false)
  {}

  /** What cutting a chunk in two gives. */
  ghost predicate SplitDone(m: Memory, binmap: nat, s: Shape, c: int, n: int, rest: int)
    requires c in s.blocks && c in m && c + n in m && c + n + rest in m
  {
    var m', s' := SplitMem(m, c, n, Block(rest, false)), SplitShape(s, c, n, false);
    && Inv(m', s') && Indexed(binmap, s') && m'.Keys == m.Keys
    && Live(s') == Live(s)[c := n][c + n := rest] && c + n !in Live(s) && KeepsPayloads(m, m', Live(s'))
  }

  lemma SplitStep(m: Memory, binmap: nat, s: Shape, c: int, n: int, rest: int)
    requires Splittable(s, c, n) && !s.blocks[c].free && rest == s.blocks[c].size - n
    requires Indexed(binmap, s)
    requires Inv(m, s)
    ensures c in m && c + n in m && c + n + rest in m && SplitDone(m, binmap, s, c, n, rest)
  {
    hide Inv, Indexed, KeepsPayloads;
    SplitInv(m, s, c, n);
    SplitKeeps(m, s, c, n);
    LiveSplit(s, c, n);
    SameIndex(binmap, s, SplitShape(s, c, n, false));
    SplitWrites(m, c, n, Block(rest, false));
    SplitInside(m, s, c, n);
  }

  lemma SplitInside(m: Memory, s: Shape, c: int, n: int)
    requires Inv(m, s) && Splittable(s, c, n)
    ensures c + n !in s.blocks
  {
    InsideNotBlock(s, c, c + n);
  }

  predicate PretrimReady(m: Memory, c: int, n: int, size: int) {
    c in m && c + n in m && m[c].prev in m && m[c].next in m && c + size in m
  }

  /** The writes of `pretrim`: the rest takes the chunk's place in its list, then the size words are set. */
  function PretrimMem(m: Memory, c: int, n: int, size: int): Memory
    requires PretrimReady(m, c, n, size)
  {
    SplitMem(RelinkMem(m, c, c + n), c, n, Block(size - n, true))
  }

  lemma CarveStep(m: Memory, binmap: nat, s: Shape, c: int, n: int, j: int)
    requires Inv(m, s) && Indexed(binmap, s) && 0 <= j < 64 && |s.bins| == 64 && s.bins[j] != [] && s.bins[j][0] == c
    requires SIZE_ALIGN <= n <= MMAP_THRESHOLD && n % SIZE_ALIGN == 0 && OfClass(s, c, j) && n <= s.blocks[c].size
    requires BinIndex(s.blocks[c].size - n) == j
    ensures PretrimReady(m, c, n, s.blocks[c].size)
    ensures var m', s' := PretrimMem(m, c, n, s.blocks[c].size), PretrimShape(s, c, n, j);
            && Inv(m', s') && Indexed(binmap, s') && m'.Keys == m.Keys && SameEdges(s, s')
            && c !in Live(s) && Live(s') == Live(s)[c := n] && KeepsPayloads(m, m', Live(s))
  {
    hide Inv, Indexed, KeepsPayloads, BinIndex, SplitMem, RelinkMem;
    BlockFacts(m, s, c);
    CarveRest(s.blocks[c].size, n);
    PretrimInv(m, s, c, n, j);
    PretrimKeeps(m, s, c, n, j);
    SplitInside(m, s, c, n);
    LivePretrim(s, c, n, j);
    CarveIndexed(binmap, s, PretrimShape(s, c, n, j), j, c + n);
    NotOwnNeighbour(m, s, j, 0);
    PretrimWrites(m, c, n, s.blocks[c].size);
  }

  /** What is left of a carved chunk is a chunk: an exact fit never reaches this point. */
  lemma CarveRest(size: int, n: int)
    requires n <= size < WORD && SIZE_ALIGN <= n <= MMAP_THRESHOLD && BinIndex(size) == BinIndex(size - n)
    ensures n < size
  {
    if n == size {
      assert BinIndex(0) == 63;
      LastBin(size);
    }
  }

  lemma CarveIndexed(binmap: nat, s: Shape, s': Shape, j: int, x: int)
    requires Indexed(binmap, s) && 0 <= j < 64 && s.bins[j] != [] && s'.bins == s.bins[j := s.bins[j][0 := x]]
    ensures Indexed(binmap, s')
  {}

  predicate Granted(m: Memory, p: int, n: int, inPlace: bool) {
    && p % SIZE_ALIGN == 0 && n % SIZE_ALIGN == 0 && n >= 2 * SIZE_ALIGN
    && (inPlace ==> p - OVERHEAD in m)
  }

  /** The granules of [p, p + n), zero-filled by the system. */
  function Fresh(p: int, n: int): Memory {
    map a: int | p <= a < p + n && Granule(a) :: Chunk(0, 0, 0, 0)
  }

  lemma FreshHas(p: int, n: int)
    requires p % SIZE_ALIGN == 0 && n % SIZE_ALIGN == 0 && n >= SIZE_ALIGN
    ensures p + OVERHEAD in Fresh(p, n) && p + n - OVERHEAD in Fresh(p, n)
    ensures Granule(p - OVERHEAD) && Granule(p + OVERHEAD)
  {
    GranuleAt(p);
    SumAligned(p, n);
    GranuleAt(p + n);
    hide Granule;
  }

  lemma SumAligned(p: int, n: int)
    requires p % SIZE_ALIGN == 0 && n % SIZE_ALIGN == 0
    ensures (p + n) % SIZE_ALIGN == 0
  {}

  lemma GranuleAt(p: int)
    requires p % SIZE_ALIGN == 0
    ensures Granule(p - OVERHEAD) && Granule(p + OVERHEAD)
  {}

  /** The writes of `expand_heap`: a footer at the new end, and a header at the start of the new chunk. */
  function GrowMem(m: Memory, p: int, n: int, inPlace: bool): Memory
    requires Granted(m, p, n, inPlace)
  {
    FreshHas(p, n);
    var m0 := m + Fresh(p, n);
    var w := if inPlace then p - OVERHEAD else p + OVERHEAD;
    var size := if inPlace then n else n - SIZE_ALIGN;
    var m1 := if inPlace then m0 else SetPsize(m0, w, 1);
    var footer := w + size;
    SetCsize(SetCsize(SetPsize(m1, footer, size + 1), footer, 1), w, size + 1)
  }

  lemma GrowKeys(m: Memory, p: int, n: int, inPlace: bool)
    requires Granted(m, p, n, inPlace)
    ensures forall a :: a in GrowMem(m, p, n, inPlace) ==> a in m || p <= a < p + n
  {}

  lemma GrowRoom(m: Memory, s: Shape, p: int, n: int, inPlace: bool)
    requires Granted(m, p, n, inPlace) && (inPlace ==> p - OVERHEAD in s.ends) && STATIC_TOP < p - OVERHEAD && p + n < LIMIT
    requires forall a :: a in m ==> a < STATIC_TOP || Granule(a)
    requires forall a :: a in m ==> a < p || p + n <= a
    ensures var w := if inPlace then p - OVERHEAD else p + OVERHEAD;
            var size := if inPlace then n else n - SIZE_ALIGN;
            Room(m, s, w, size, inPlace)
  {
    FreshHas(p, n);
    SubAligned(n, SIZE_ALIGN);
    hide Granule;
    forall a | a in m && Granule(a) && a < p ensures a <= p - OVERHEAD { GranuleBelow(a, p); }
  }

  lemma GrowWrites(m: Memory, p: int, n: int, inPlace: bool)
    requires Granted(m, p, n, inPlace) && STATIC_TOP < p - OVERHEAD
    requires forall a :: a in m ==> a < STATIC_TOP || Granule(a)
    requires forall a :: a in m ==> a < p || p + n <= a
    ensures var w := if inPlace then p - OVERHEAD else p + OVERHEAD;
            var size := if inPlace then n else n - SIZE_ALIGN;
            Grown(m, w, size, inPlace, GrowMem(m, p, n, inPlace))
  {
    hide Granule;
    FreshHas(p, n);
    forall a | p - OVERHEAD < a && Granule(a) ensures p + OVERHEAD <= a { GranuleAbove(a, p); }
  }

  lemma GrowGranules(m: Memory, p: int, n: int, inPlace: bool)
    requires Granted(m, p, n, inPlace) && STATIC_TOP < p - OVERHEAD
    requires forall a :: a in m ==> a < STATIC_TOP || Granule(a)
    ensures forall a :: a in GrowMem(m, p, n, inPlace) ==> a < STATIC_TOP || Granule(a)
    ensures forall a :: a in m ==> a in GrowMem(m, p, n, inPlace)
  {
    hide Granule;
    FreshHas(p, n);
  }

  lemma GranuleAbove(a: int, p: int)
    requires Granule(a) && p % SIZE_ALIGN == 0 && p - OVERHEAD < a
    ensures p + OVERHEAD <= a
  {}

  lemma StartsHigh(p: int)
    requires p % SIZE_ALIGN == 0 && STATIC_TOP < p
    ensures STATIC_TOP < p - OVERHEAD
  {}

  lemma GranuleBelow(a: int, p: int)
    requires Granule(a) && p % SIZE_ALIGN == 0 && a < p
    ensures a <= p - OVERHEAD
  {}

  lemma GrowStep(m: Memory, binmap: nat, s: Shape, end: int, p: int, n: int, inPlace: bool)
    requires Inv(m, s) && Indexed(binmap, s) && (end == 0 || end - OVERHEAD in s.ends) && (inPlace <==> p == end)
    requires forall a :: a in m ==> a < STATIC_TOP || Granule(a)
    requires n >= 2 * SIZE_ALIGN && n % SIZE_ALIGN == 0 && p % SIZE_ALIGN == 0 && STATIC_TOP < p && p + n < LIMIT
    requires forall a :: a in m ==> a < p || p + n <= a
    ensures Granted(m, p, n, inPlace)
    ensures var w := if inPlace then p - OVERHEAD else p + OVERHEAD;
            var size := if inPlace then n else n - SIZE_ALIGN;
            var m', s' := GrowMem(m, p, n, inPlace), ExtendShape(s, w, size, inPlace);
            && Inv(m', s') && Indexed(binmap, s') && KeepsPayloads(m, m', Live(s)) && w + size in s'.ends
            && w !in s.blocks && w !in Live(s) && Live(s') == Live(s)[w := size]
            && (forall a :: a in m' ==> a < STATIC_TOP || Granule(a)) && (forall a :: a in m ==> a in m')
  {
    hide Inv, Indexed, KeepsPayloads, GrowMem, Room, Grown, Granule;
    if inPlace { AboveFacts(m, s, p - OVERHEAD); }
    var w := if inPlace then p - OVERHEAD else p + OVERHEAD;
    var size := if inPlace then n else n - SIZE_ALIGN;
    if w in s.blocks { BlockFacts(m, s, w); }
    StartsHigh(p);
    GrowRoom(m, s, p, n, inPlace);
    GrowWrites(m, p, n, inPlace);
    GrowGranules(m, p, n, inPlace);
    ExtendInv(m, s, w, size, inPlace, GrowMem(m, p, n, inPlace));
    SameIndex(binmap, s, ExtendShape(s, w, size, inPlace));
    LiveExtend(s, w, size, inPlace);
  }

  lemma LiveIsAllocated(s: Shape, c: int)
    requires c in s.blocks && s.blocks[c].free
    ensures c !in Live(s)
  {}

  /** Payload pointers are aligned for any C type and never null. */
  lemma LiveAligned(m: Memory, s: Shape, c: int)
    requires Inv(m, s) && c in Live(s)
    ensures (c + OVERHEAD) % SIZE_ALIGN == 0 && c > STATIC_TOP
  {
    LiveBlock(m, s, c);
    BlockFacts(m, s, c);
    hide Inv;
    MemAligned(c);
  }

  /** Two adjacent allocated chunks become one. */
  lemma MergeStep(m: Memory, binmap: nat, s: Shape, c: int, x: int, hi: int)
    requires c in s.blocks && x in s.blocks && c + s.blocks[c].size == x && x + s.blocks[x].size == hi
    requires !s.blocks[c].free && !s.blocks[x].free
    requires Indexed(binmap, s)
    requires Inv(m, s)
    ensures c in m && x in m && hi in m && c > 0 && s.blocks[c].size > 0 && s.blocks[x].size > 0
    ensures SizeOf(m[c].csize) == s.blocks[c].size && SizeOf(m[x].csize) == s.blocks[x].size
    ensures Inv(JoinMem(m, c, hi), JoinShape(s, c, hi)) && Indexed(binmap, JoinShape(s, c, hi))
    ensures JoinMem(m, c, hi).Keys == m.Keys && SameEdges(s, JoinShape(s, c, hi))
    ensures KeepsPayloads(m, JoinMem(m, c, hi), Live(s))
    ensures Live(JoinShape(s, c, hi)) == (map d | d in Live(s) && !(c < d < hi) :: Live(s)[d])[c := hi - c]
  {
    hide Inv, Indexed, KeepsPayloads, Joinable, Live, SizeOf;
    BlockFacts(m, s, c);
    BlockFacts(m, s, x);
    TwoJoinable(m, s, c, x);
    JoinInv(m, s, c, hi);
    JoinKeeps(m, s, c, hi);
    LiveJoin(s, c, hi);
    SameIndex(binmap, s, JoinShape(s, c, hi));
  }

  lemma TwoJoinable(m: Memory, s: Shape, c: int, x: int)
    requires Inv(m, s) && c in s.blocks && x in s.blocks && c + s.blocks[c].size == x && !s.blocks[c].free && !s.blocks[x].free
    ensures Joinable(m, s, c, x + s.blocks[x].size)
  {
    OneJoinable(m, s, x);
    hide Inv, Joinable;
    GatherJoin(m, s, x, x + s.blocks[x].size, c);
  }

  lemma MergeLive(m: Memory, s: Shape, c: int, x: int, live: map<int, int>)
    requires Inv(m, s) && c in s.blocks && x in s.blocks && c + s.blocks[c].size == x
    requires c !in live && x !in live && Live(s) == live[x := s.blocks[x].size][c := s.blocks[c].size]
    ensures var hi := x + s.blocks[x].size;
            (map d | d in Live(s) && !(c < d < hi) :: Live(s)[d])[c := hi - c] == live[c := hi - c]
  {
    var hi := x + s.blocks[x].size;
    forall d | d in live ensures !(c < d < hi) && d != x && d != c {
      assert d in Live(s) && d in s.blocks;
      if c < d { InsideTaken(m, s, c, d); if x < d { InsideTaken(m, s, x, d); } }
    }
  }

  /** Every chunk on list `j` has at least `n` bytes. */
  ghost predicate Fits(s: Shape, j: int, n: int)
    requires 0 <= j < |s.bins|
  {
    forall c :: c in s.bins[j] ==> c in s.blocks && n <= s.blocks[c].size
  }

  /** First fit by bins: any list at or above the rounded-up bin of a request holds only chunks that satisfy it. */
  lemma BinFits(m: Memory, s: Shape, j: int, n: int)
    requires Inv(m, s) && |s.bins| == 64 && SIZE_ALIGN <= n <= MMAP_THRESHOLD && n % SIZE_ALIGN == 0
    requires BinIndexUp(n) <= j < 64 && 0 <= j
    ensures Fits(s, j, n)
  {
    hide BinIndex, BinIndexUp;
    forall c | c in s.bins[j] ensures c in s.blocks && n <= s.blocks[c].size {
      ListFacts(m, s, j);
      BlockFacts(m, s, c);
      BinSuffices(s.blocks[c].size, n);
    }
  }

  /** The first `size` bytes of the chunk at `c'` (after its size words) are those the chunk at `c` had. */
  ghost predicate SameContents(m: Memory, c: int, m': Memory, c': int, size: int) {
    && c in m && c' in m' && m'[c'].next == m[c].next && m'[c'].prev == m[c].prev
    && forall a {:trigger Granule(a)} :: c < a < c + size && Granule(a) ==>
         a in m && c' + (a - c) in m' && m'[c' + (a - c)] == m[a]
  }

  /** A chunk whose footer already agrees is rewritten with the same words. */
  lemma RewriteSame(m: Memory, c: int, n: int)
    requires c in m && c + n in m && m[c].csize == n + 1 && m[c + n].psize == n + 1
    ensures SetPsize(SetCsize(m, c, n + 1), c + n, n + 1) == m
  {}

  /** A live chunk grows over the chunk above it. */
  lemma MergeOver(m: Memory, s: Shape, c: int, x: int, live: map<int, int>)
    requires c in s.blocks && x in s.blocks && c + s.blocks[c].size == x && c in live && x !in live
    requires Live(s) == live[x := s.blocks[x].size]
    requires Inv(m, s)
    ensures var hi := x + s.blocks[x].size;
            (map d | d in Live(s) && !(c < d < hi) :: Live(s)[d])[c := hi - c] == live[c := hi - c]
  {
    hide Inv;
    var hi := x + s.blocks[x].size;
    BlockFacts(m, s, c);
    BlockFacts(m, s, x);
    forall d | d in live ensures !(c < d < hi) && d != x {
      assert d in Live(s) && d in s.blocks;
      if c < d { InsideTaken(m, s, c, d); if x < d { InsideTaken(m, s, x, d); } }
    }
  }

  /** No chunk is listed that is sure to be large enough. */
  ghost predicate NoneFor(s: Shape, n: int) {
    SIZE_ALIGN <= n <= MMAP_THRESHOLD && forall j :: BinIndexUp(n) <= j < 64 && 0 <= j < |s.bins| ==> s.bins[j] == []
  }

  /** memcpy(dst + OVERHEAD, src + OVERHEAD, size - OVERHEAD), word for word. */
  function CopyMem(m: Memory, dst: int, src: int, size: int): Memory {
    map a | a in m ::
      if a == dst && src in m then m[a].(next := m[src].next, prev := m[src].prev)
      else if dst < a < dst + size && Granule(a) && src + (a - dst) in m then m[src + (a - dst)]
      else m[a]
  }

  lemma CopyStep(m: Memory, s: Shape, dst: int, src: int, size: int)
    requires Inv(m, s) && src in s.blocks && dst in s.blocks && !s.blocks[dst].free && !s.blocks[src].free
    requires 0 < size <= s.blocks[src].size && size <= s.blocks[dst].size
    ensures WritesInside(m, CopyMem(m, dst, src, size), s, dst) && CopyMem(m, dst, src, size).Keys == m.Keys
    ensures SameContents(m, src, CopyMem(m, dst, src, size), dst, size)
  {
    BlockFacts(m, s, dst);
    BlockFacts(m, s, src);
    CopyContents(m, s, dst, src, size);
  }

  lemma CopyContents(m: Memory, s: Shape, dst: int, src: int, size: int)
    requires Mapped(m, s) && src in s.blocks && dst in s.blocks && src in m && dst in m && Granule(src) && Granule(dst)
    requires 0 < size <= s.blocks[src].size && size <= s.blocks[dst].size
    ensures SameContents(m, src, CopyMem(m, dst, src, size), dst, size)
  {
    var m' := CopyMem(m, dst, src, size);
    forall a | src < a < src + size && Granule(a)
      ensures a in m && dst + (a - src) in m' && m'[dst + (a - src)] == m[a]
    {
      DifferenceAligned(src, a);
      AddAligned(dst, a - src);
      hide Granule;
      assert Granule(dst + (a - src));
    }
  }

  /** In place: the old payload survives the growth and the trim, up to the new size. */
  lemma ReallocTrimmed(m0: Memory, m1: Memory, m2: Memory, live0: map<int, int>, live1: map<int, int>, c: int, n0: int, size: int)
    requires KeepsPayloads(m0, m1, live0) && KeepsPayloads(m1, m2, live1[c := size])
    requires c in live0 && live0[c] == n0 && c in live1 && live1 == live0[c := live1[c]]
    ensures SameContents(m0, c, m2, c, Min(n0, size))
    ensures KeepsPayloads(m0, m2, live0 - {c}) && live1[c := size] == (live0 - {c})[c := size]
  {
    var after := live1[c := size];
    assert SamePayload(m0, m1, c, live0[c]) && SamePayload(m1, m2, c, after[c]);
    hide KeepsPayloads;
    KeepsFewer(m0, m1, live0 - {c}, live0);
    KeepsFewer(m1, m2, live0 - {c}, live1[c := size]);
    KeepsTransitive2(m0, m1, m2, live0 - {c}, live0 - {c});
  }

  /** By copy: the old payload reaches the new chunk and survives the release of the old one. */
  lemma ReallocCopied(m0: Memory, m2: Memory, m3: Memory, m4: Memory, live0: map<int, int>, live2: map<int, int>, live4: map<int, int>, c: int, c': int, n0: int, size: int)
    requires KeepsPayloads(m0, m2, live0) && KeepsPayloads(m2, m3, live2 - {c'}) && KeepsPayloads(m3, m4, live4)
    requires SameContents(m2, c, m3, c', n0) && c in live0 && live0[c] == n0 <= size
    requires c' in live4 && live4[c'] == size && c' !in live0 && Granule(c) && Granule(c')
    requires forall d :: d in live0 && d != c ==> d in live2 && d in live4 && live2[d] == live0[d] && live4[d] == live0[d]
    ensures SameContents(m0, c, m4, c', Min(n0, size)) && KeepsPayloads(m0, m4, live0 - {c})
  {
    assert SamePayload(m0, m2, c, live0[c]) && SamePayload(m3, m4, c', live4[c']);
    CopiedContents(m0, m2, m3, m4, c, c', n0, size);
    hide KeepsPayloads;
    KeepsFewer(m0, m2, live0 - {c}, live0);
    KeepsFewer(m2, m3, live0 - {c}, live2 - {c'});
    KeepsFewer(m3, m4, live0 - {c}, live4);
    KeepsTransitive2(m0, m2, m3, live0 - {c}, live0 - {c});
    KeepsTransitive2(m0, m3, m4, live0 - {c}, live0 - {c});
  }

  lemma CopiedContents(m0: Memory, m2: Memory, m3: Memory, m4: Memory, c: int, c': int, n0: int, size: int)
    requires SamePayload(m0, m2, c, n0) && SameContents(m2, c, m3, c', n0) && SamePayload(m3, m4, c', size) && n0 <= size
    requires Granule(c) && Granule(c')
    ensures SameContents(m0, c, m4, c', n0)
  {
    forall a | c < a < c + n0 && Granule(a)
      ensures a in m0 && c' + (a - c) in m4 && m4[c' + (a - c)] == m0[a]
    {
      DifferenceAligned(c, a);
      AddAligned(c', a - c);
      hide Granule;
      assert Granule(c' + (a - c));
    }
  }

  /** Asking for the usable size of an adjusted chunk adjusts to the same chunk size, unless it is refused. */
  lemma AgainAdjusted(size: nat)
    requires SIZE_ALIGN <= size < LIMIT && size % SIZE_ALIGN == 0
    ensures AdjustSize(size - OVERHEAD).Adjusted? ==> AdjustSize(size - OVERHEAD).n == size
  {
    AdjustSizeMeaning(size - OVERHEAD);
    hide AdjustSize;
    if AdjustSize(size - OVERHEAD).Adjusted? { MultipleBetween(size, AdjustSize(size - OVERHEAD).n); }
  }

  /** At the very limit of sizes, the adjusted size of a request is itself too large a request. */
  predicate TooLargeAgain(n: nat)
    requires n < WORD
  {
    AdjustSize(n).Adjusted? && OVERHEAD <= AdjustSize(n).n < WORD && AdjustSize(AdjustSize(n).n - OVERHEAD).TooLarge?
  }

  lemma SameHonest(os: Grant, m: Memory, m': Memory, request: int)
    requires Honest(os, m, request) && m'.Keys == m.Keys
    ensures Honest(os, m', request)
  {
    assert forall a :: a in m' ==> a in m.Keys;
  }

  datatype Pointer = Null | Heap(address: int) | Mmapped

  /** Absorbing a free chunk of size s makes a chunk of n bytes large enough, and longer by a bit, to give pages back. */
  ghost predicate Crosses(n: int, s: int) {
    s > 0 && n + s > RECLAIM && PowerBetween(s, n + s)
  }

  /** The size of a chunk, together with that of the next one if it is free. */
  ghost function RoomAt(s: Shape, c: int): int
    requires c in s.blocks
  {
    s.blocks[c].size + FreeAt(s, c + s.blocks[c].size)
  }

  lemma RoomAtLeast(m: Memory, s: Shape, c: int)
    requires Inv(m, s) && c in s.blocks
    ensures RoomAt(s, c) >= s.blocks[c].size
  {
    BlockFacts(m, s, c);
    hide Inv;
    if c + s.blocks[c].size in s.blocks { BlockFacts(m, s, c + s.blocks[c].size); }
  }

  /** Free chunks of at least n bytes are as they were. */
  ghost predicate LessFree(s: Shape, s': Shape, n: int) {
    forall c :: c in s.blocks && s.blocks[c].free && s.blocks[c].size >= n ==> c in s'.blocks && s'.blocks[c] == s.blocks[c]
  }

  /** Absorbing a free chunk that is too small leaves the large ones. */
  lemma AbsorbedLess(m: Memory, s: Shape, s': Shape, c: int, x: int, n: int)
    requires Inv(m, s) && c in s.blocks && !s.blocks[c].free && x == c + s.blocks[c].size && Taken(s, s', x) && s.blocks[x].size < n
    ensures LessFree(s, JoinShape(s', c, x + s.blocks[x].size), n)
  {
    hide Inv;
    forall d | d in s.blocks && s.blocks[d].free && s.blocks[d].size >= n ensures !(c < d < x + s.blocks[x].size) && d != c {
      if c < d { InsideTaken(m, s, c, d); }
      if x < d { InsideTaken(m, s, x, d); }
    }
  }

  lemma StillListed(m: Memory, s: Shape, m': Memory, s': Shape, n: int, j: int, c: int)
    requires Inv(m, s) && Inv(m', s') && LessFree(s, s', n) && n % SIZE_ALIGN == 0 && SIZE_ALIGN <= n <= MMAP_THRESHOLD
    requires BinIndexUp(n) <= j < 64 && 0 <= j < |s.bins| && c in s.bins[j]
    ensures |s'.bins| == 64 && c in s'.bins[j]
  {
    hide BinIndex, BinIndexUp;
    BinFits(m, s, j, n);
    assert OfClass(s, c, j);
  }

  /** So if no list of s' has a chunk that is sure to fit, none of s has. */
  lemma StillNone(m: Memory, s: Shape, m': Memory, s': Shape, n: int)
    requires Inv(m, s) && Inv(m', s') && LessFree(s, s', n) && NoneFor(s', n) && n % SIZE_ALIGN == 0
    ensures NoneFor(s, n)
  {
    hide BinIndex, BinIndexUp, Inv;
    forall j | BinIndexUp(n) <= j < 64 && 0 <= j < |s.bins| ensures s.bins[j] == [] {
      if s.bins[j] != [] { StillListed(m, s, m', s', n, j, s.bins[j][0]); }
    }
  }

  /** List j is the first from list i on that is not empty. */
  ghost predicate FirstList(s: Shape, i: int, j: int) {
    0 <= i <= j < |s.bins| && s.bins[j] != [] && forall k :: i <= k < j ==> s.bins[k] == []
  }

  /** c is the head of the first list that is not empty, from the one of the request on. */
  ghost predicate FromList(s: Shape, n: int, c: int) {
    SIZE_ALIGN <= n <= MMAP_THRESHOLD && exists j :: FirstList(s, BinIndexUp(n), j) && c == s.bins[j][0]
  }

  /** Where a new chunk comes from: a listed chunk is used if there is one that is sure to fit, and the system is asked only if there is none. */
  ghost predicate Origin(s: Shape, end: int, os: Grant, s': Shape, n: int, c: int) {
    if NoneFor(s, n) then FromSystem(s, end, os, s', c) else FromList(s, n, c) && SameEdges(s, s')
  }

  /** New memory below which nothing is free, or a free chunk below it. */
  lemma SystemChunk(s: Shape, end: int, os: Grant, s1: Shape, s2: Shape, c: int)
    requires os.Granted? && GrantAt(end, os) !in s.blocks
    requires s1 == ExtendShape(s, GrantAt(end, os), os.p + os.n - OVERHEAD - GrantAt(end, os), os.p == end) && SameEdges(s1, s2)
    requires (c == GrantAt(end, os) && NoFreeBelow(s1, c)) || (c in s1.blocks && s1.blocks[c].free && c + s1.blocks[c].size == GrantAt(end, os))
    ensures FromSystem(s, end, os, s2, c)
  {
    var w := GrantAt(end, os);
    if c == w {
      forall d | d in s.blocks && s.blocks[d].free ensures d + s.blocks[d].size != w { assert s1.blocks[d] == s.blocks[d]; }
    }
  }

  /** Where the header of a granted chunk is: memory that continues the heap takes its footer for a header. */
  function GrantAt(end: int, os: Grant): int
    requires os.Granted?
  {
    if os.p == end then os.p - OVERHEAD else os.p + OVERHEAD
  }

  /** Granted memory is added, and nothing else changes at the edges; c is its chunk, or the free one below with it. */
  ghost predicate FromSystem(s: Shape, end: int, os: Grant, s': Shape, c: int) {
    os.Granted? &&
      var w := GrantAt(end, os);
      && s'.ends == s.ends - {w} + {os.p + os.n - OVERHEAD}
      && s'.starts == (if os.p == end then s.starts else s.starts + {w})
      && ((c == w && NoFreeBelow(s, w)) || (c in s.blocks && s.blocks[c].free && c + s.blocks[c].size == w))
  }

  /** The words from a to b are zero. */
  predicate AllZero(m: Memory, a: int, b: int) {
    forall g :: g in m ==>
      (a <= g < b ==> m[g].psize == 0) && (a <= g + 8 < b ==> m[g].csize == 0) && (a <= g + 16 < b ==> m[g].next == 0) && (a <= g + 24 < b ==> m[g].prev == 0)
  }

  /** A chunk of size n at c became, with its free neighbours, one free chunk, and its pages were given back if that made it large enough. */
  ghost predicate Freed(s: Shape, c: int, n: int, s': Shape, m': Memory) {
    exists below :: FreeBelowIs(s, c, below) &&
      var above := FreeAt(s, c + n);
      && c - below in s'.blocks && s'.blocks[c - below] == Block(below + n + above, true)
      && (Crosses(n, below) || Crosses(n, above) ==> exists a, b :: Pages(c - below, c + n + above, a, b) && AllZero(m', a, b))
  }

  lemma NowZero(m: Memory, m': Memory, a: int, b: int)
    requires ZeroBetween(m, m', a, b)
    ensures AllZero(m', a, b)
  {}

  lemma CrossesXor(n: int, s: int)
    requires n > 0 && s >= 0
    ensures Crosses(n, s) <==> s != 0 && n + s > RECLAIM && Xor(n + s, s) > s
  {
    hide PowerBetween, Xor;
    if s > 0 { XorGreater(n + s, s); }
  }

  lemma AboveFree(s: Shape, s': Shape, c: int)
    requires Taken(s, s', c)
    ensures c in s'.blocks && s'.blocks[c].size == FreeAt(s, c)
  {}

  lemma NothingBeside(s: Shape, lo: int, hi: int)
    ensures NoFreeBelow(s, lo) <==> FreeBelowIs(s, lo, 0)
    ensures NoFreeAt(s, hi) ==> FreeAt(s, hi) == 0
  {}

  /** Absorbing below does not change what is above. */
  lemma TakenAt(s: Shape, s': Shape, c: int, size: int, x: int)
    requires c != x && size >= 0 && (size == 0 ==> s' == s) && (size > 0 ==> Taken(s, s', c))
    ensures FreeAt(s', x) == FreeAt(s, x)
  {}

  class Allocator {
    var mem: Memory
    var binmap: nat
    var end: int
    ghost var shape: Shape

    ghost predicate Valid()
      reads this
    {
      && Inv(mem, shape) && Indexed(binmap, shape)
      && (end == 0 || end - OVERHEAD in shape.ends)
      && forall a :: a in mem ==> a < STATIC_TOP || Granule(a)
    }

    ghost function LiveNow(): map<int, int>
      reads this
    {
      Live(shape)
    }

    constructor ()
      ensures Valid() && LiveNow() == map[] && mem.Keys == set i: int | 0 <= i < 64 :: Sentinel(i)
    {
      mem := map i: int | 0 <= i < 64 :: Sentinel(i) := Chunk(0, 0, 0, 0);
      binmap, end := 0, 0;
      shape := Shape(map[], {}, {}, seq(64, i => []));
      new;
      EmptyHeap(mem, shape);
    }

    method LockBin(i: int)
      requires Valid() && 0 <= i < 64
      modifies `mem
      ensures Valid() && mem.Keys == old(mem).Keys
      ensures Sentinel(i) in mem && mem[Sentinel(i)].next != 0
      ensures KeepsPayloads(old(mem), mem, LiveNow())
      ensures forall a :: a in old(mem) && a > STATIC_TOP ==> mem[a] == old(mem)[a]
    {
      hide Inv, KeepsPayloads, Live, Indexed, Granule, SizeOf, InUse, MarkInUse;
      InitBinInv(mem, shape, i);
      if mem[Sentinel(i)].next == 0 {
        mem := SetPrev(SetNext(mem, Sentinel(i), Sentinel(i)), Sentinel(i), Sentinel(i));
      }
    }

    method Unbin(c: int, i: int, ghost k: nat)
      requires Valid() && 0 <= i < 64 && k < |shape.bins[i]| && shape.bins[i][k] == c
      modifies this
      ensures Valid() && mem.Keys == old(mem).Keys && end == old(end) && SameEdges(old(shape), shape)
      ensures c in old(shape).blocks && old(shape).blocks[c].free && shape == UnbinShape(old(shape), c, i, k)
      ensures KeepsPayloads(old(mem), mem, old(LiveNow()))
    {
      hide Inv, KeepsPayloads, Live, Indexed, Granule, UnbinMem, UnbinReady;
      UnbinStep(mem, binmap, shape, c, i, k);
      if mem[c].prev == mem[c].next {
        binmap := And(binmap, Not(Pow2(i), 64));
      }
      mem := UnbinMem(mem, c);
      shape := UnbinShape(shape, c, i, k);
    }

    /** Take the chunk at `c` out of its bin if it is free. */
    method AllocFwd(c: int) returns (ok: bool)
      requires Valid() && (c in shape.blocks || c in shape.ends)
      modifies this
      ensures Valid() && mem.Keys == old(mem).Keys && end == old(end) && SameEdges(old(shape), shape)
      ensures ok <==> !NoFreeAt(old(shape), c)
      ensures ok ==> Taken(old(shape), shape, c)
      ensures !ok ==> shape == old(shape) && mem == old(mem)
      ensures KeepsPayloads(old(mem), mem, old(LiveNow()))
    {
      hide Inv, KeepsPayloads, Live, Indexed, Granule, SizeOf, InUse, BinIndex;
      ghost var m := mem;
      AboveFacts(mem, shape, c);
      SelfKeeps(mem, shape);
      if InUse(mem[c].csize) { return false; }
      BlockFacts(mem, shape, c);
      ghost var k := BinPosition(mem, shape, c);
      var i := BinIndex(mem[c].csize);
      LockBin(i);
      ghost var m1 := mem;
      Unbin(c, i, k);
      KeepsTransitive2(m, m1, mem, old(LiveNow()), old(LiveNow()));
      return true;
    }

    /** Take the chunk below `c` out of its bin if it is free. */
    method AllocRev(c: int) returns (ok: bool)
      requires Valid() && (c in shape.blocks || c in shape.ends)
      modifies this
      ensures Valid() && mem.Keys == old(mem).Keys && end == old(end) && SameEdges(old(shape), shape)
      ensures ok <==> !NoFreeBelow(old(shape), c)
      ensures ok ==> c in mem && var p := c - SizeOf(mem[c].psize); Taken(old(shape), shape, p) && p + shape.blocks[p].size == c
      ensures !ok ==> shape == old(shape) && mem == old(mem)
      ensures KeepsPayloads(old(mem), mem, old(LiveNow()))
    {
      hide Inv, KeepsPayloads, Live, Indexed, Granule, SizeOf, InUse, BinIndex;
      ghost var m := mem;
      BelowFacts(mem, shape, c);
      SelfKeeps(mem, shape);
      if InUse(mem[c].psize) { return false; }
      var p := c - SizeOf(mem[c].psize);
      BlockFacts(mem, shape, p);
      ghost var k := BinPosition(mem, shape, p);
      var i := BinIndex(mem[c].psize);
      LockBin(i);
      ghost var m1 := mem;
      Unbin(p, i, k);
      BlockFacts(mem, shape, p);
      BelowSize(mem, shape, p);
      KeepsTransitive2(m, m1, mem, old(LiveNow()), old(LiveNow()));
      return true;
    }

    /** One half of the loop of `free`: absorb the chunk below the gathered range if it is free. */
    method AbsorbBelow(self: int, next: int, ghost m0: Memory, ghost s0: Shape, ghost c0: int) returns (size: int)
      requires Valid() && Gathered(m0, s0, c0, mem, shape, self, next)
      modifies this
      ensures Valid() && mem.Keys == old(mem).Keys && end == old(end) && SameEdges(old(shape), shape) && size >= 0
      ensures Gathered(m0, s0, c0, mem, shape, self - size, next)
      ensures NoFreeBelow(shape, self - size) && FreeBelowIs(old(shape), self, size)
      ensures size == 0 ==> shape == old(shape)
      ensures size > 0 ==> Taken(old(shape), shape, self - size)
    {
      hide Inv, KeepsPayloads, Live, Indexed, Granule, SizeOf, InUse, Joinable, Gathered, NoFreeAt, NoFreeBelow, BinIndex;
      ghost var m1, s1 := mem, shape;
      GatherInv(m0, s0, c0, mem, shape, self, next);
      var ok := AllocRev(self);
      if ok {
        var prev := self - SizeOf(mem[self].psize);
        GatherMore(m0, s0, c0, m1, s1, self, next, mem, shape, prev);
        BlockFacts(mem, shape, prev);
        BelowTaken(m1, s1, shape, prev);
        size := SizeOf(mem[prev].csize);
      } else {
        size := 0;
      }
    }

    /** The other half: absorb the chunk above the gathered range if it is free. */
    method AbsorbAbove(self: int, next: int, ghost m0: Memory, ghost s0: Shape, ghost c0: int) returns (size: int)
      requires Valid() && Gathered(m0, s0, c0, mem, shape, self, next) && NoFreeBelow(shape, self)
      modifies this
      ensures Valid() && mem.Keys == old(mem).Keys && end == old(end) && SameEdges(old(shape), shape) && size >= 0
      ensures Gathered(m0, s0, c0, mem, shape, self, next + size)
      ensures NoFreeBelow(shape, self) && NoFreeAt(shape, next + size) && size == FreeAt(old(shape), next)
    {
      hide Inv, KeepsPayloads, Live, Indexed, Granule, SizeOf, InUse, Joinable, Gathered, NoFreeAt, NoFreeBelow, BinIndex;
      ghost var m1, s1 := mem, shape;
      GatherInv(m0, s0, c0, mem, shape, self, next);
      var ok := AllocFwd(next);
      NothingBeside(s1, self, next);
      if ok {
        AboveFree(s1, shape, next);
        GatherMore(m0, s0, c0, m1, s1, self, next, mem, shape, next);
        BlockFacts(mem, shape, next);
        AboveTaken(m1, s1, shape, next);
        TakenFewer(s1, shape, next, self);
        size := SizeOf(mem[next].csize);
      } else {
        size := 0;
      }
    }

    /** The loop of `free`: absorb free neighbours until both sides are allocated. */
    method Gather(c0: int) returns (self: int, next: int, finalSize: int, reclaim: bool, ghost below: int, ghost above: int)
      requires Valid() && c0 in LiveNow()
      modifies this
      ensures Valid() && mem.Keys == old(mem).Keys && end == old(end) && SameEdges(old(shape), shape)
      ensures Gathered(old(mem), old(shape), c0, mem, shape, self, next) && finalSize == next - self
      ensures self in mem && InUse(mem[self].psize) && next in mem && InUse(mem[next].csize)
      ensures reclaim ==> finalSize > RECLAIM
      ensures FreeBelowIs(old(shape), c0, below) && above == FreeAt(old(shape), c0 + old(LiveNow())[c0])
      ensures self == c0 - below && next == c0 + old(LiveNow())[c0] + above
      ensures reclaim <==> Crosses(old(LiveNow())[c0], below) || Crosses(old(LiveNow())[c0], above)
    {
      hide Inv, KeepsPayloads, Live, Indexed, Granule, SizeOf, InUse, Joinable, Gathered, NoFreeAt, NoFreeBelow, FreeAt, FreeBelowIs, Crosses, Xor, BinIndex;
      ghost var m0, s0 := mem, shape;
      GatherStart(mem, shape, c0);
      BlockFacts(mem, shape, c0);
      self := c0;
      finalSize := SizeOf(mem[self].csize);
      var newSize := finalSize;
      next := self + finalSize;
      reclaim := false;
      // a footer that disagrees with the header would be a crash
      if mem[next].psize != mem[self].csize { assert false; }

      ghost var merged := false;
      below, above := 0, 0;
      NothingBeside(s0, c0, next);
      CrossesXor(newSize, 0);
      LiveBlock(mem, shape, c0);
      Adjoining(mem, shape, self, next);
      while !(InUse(mem[self].psize) && InUse(mem[next].csize))
        invariant Valid() && mem.Keys == old(mem).Keys && end == old(end) && SameEdges(old(shape), shape)
        invariant Gathered(m0, s0, c0, mem, shape, self, next) && finalSize == next - self >= newSize > 0
        invariant self in mem && (InUse(mem[self].psize) <==> NoFreeBelow(shape, self))
        invariant next in mem && (InUse(mem[next].csize) <==> NoFreeAt(shape, next))
        invariant merged ==> NoFreeBelow(shape, self) && NoFreeAt(shape, next)
        invariant !merged ==> shape == s0 && self == c0 && next == c0 + newSize && below == above == 0
        invariant merged ==> FreeBelowIs(s0, c0, below) && above == FreeAt(s0, c0 + newSize)
        invariant self == c0 - below && next == c0 + newSize + above
        invariant reclaim <==> Crosses(newSize, below) || Crosses(newSize, above)
        invariant reclaim ==> finalSize > RECLAIM
        decreases if merged then 0 else 1
      {
        var size := AbsorbBelow(self, next, m0, s0, c0);
        below := size;
        self := self - size;
        finalSize := finalSize + size;
        CrossesXor(newSize, size);
        if size != 0 && newSize + size > RECLAIM && Xor(newSize + size, size) > size { reclaim := true; }
        TakenAt(s0, shape, self, size, next);
        size := AbsorbAbove(self, next, m0, s0, c0);
        above := size;
        next := next + size;
        finalSize := finalSize + size;
        CrossesXor(newSize, size);
        if size != 0 && newSize + size > RECLAIM && Xor(newSize + size, size) > size { reclaim := true; }
        merged := true;
        GatherInv(m0, s0, c0, mem, shape, self, next);
        Adjoining(mem, shape, self, next);
      }
    }

    /** The rest of `free`: one allocated chunk is written over the gathered range and put on its bin. */
    method PutInBin(self: int, next: int, finalSize: int, ghost m0: Memory, ghost s0: Shape, ghost c0: int)
      requires Valid() && Gathered(m0, s0, c0, mem, shape, self, next) && finalSize == next - self
      requires self in mem && InUse(mem[self].psize) && next in mem && InUse(mem[next].csize)
      modifies this
      ensures Valid() && mem.Keys == old(mem).Keys && end == old(end) && SameEdges(old(shape), shape)
      ensures LiveNow() == Live(s0) - {c0} && KeepsPayloads(m0, mem, LiveNow())
      ensures self in shape.blocks && shape.blocks[self] == Block(finalSize, true)
    {
      hide Inv, KeepsPayloads, Live, Indexed, Granule, SizeOf, InUse, Joinable, Gathered, BinIndex, JoinShape, Pow2, And, Or;
      GatherInv(m0, s0, c0, mem, shape, self, next);
      GatherLive(m0, s0, c0, mem, shape, self, next);
      mem := SetPsize(SetCsize(mem, self, finalSize + 1), next, finalSize + 1);
      SameIndex(binmap, shape, JoinShape(shape, self, next));
      shape := JoinShape(shape, self, next);
      assert mem == JoinMem(old(mem), self, next);
      ghost var m1, live := mem, LiveNow();
      BlockFacts(mem, shape, self);
      BinIndexRange(finalSize);
      var i := BinIndex(finalSize);
      LockBin(i);
      InsertStep(mem, binmap, shape, self, i);
      InsertKeepsAll(m0, m1, mem, InsertMem(mem, self, finalSize, i), Live(s0), live, self);
      if And(binmap, Pow2(i)) == 0 {
        binmap := Or(binmap, Pow2(i));
      }
      mem := InsertMem(mem, self, finalSize, i);
      shape := InsertShape(shape, self, i);
    }

    /** Hand the whole pages inside a large free chunk back to the system, which zeroes them. */
    method Reclaim(self: int, next: int)
      requires Valid() && self in shape.blocks && shape.blocks[self] == Block(next - self, true) && next - self > RECLAIM
      modifies `mem
      ensures Valid() && mem.Keys == old(mem).Keys
      ensures KeepsPayloads(old(mem), mem, LiveNow())
      ensures exists a, b :: Pages(self, next, a, b) && ZeroBetween(old(mem), mem, a, b)
    {
      hide Inv, KeepsPayloads, Live, Indexed, Granule, And, NegPow2, ZeroBetween;
      BlockFacts(mem, shape, self);
      PageRange(self, next);
      var a := And(self + SIZE_ALIGN + PAGE_SIZE - 1, NegPow2(12, 64));
      var b := And(next - SIZE_ALIGN, NegPow2(12, 64));
      ZeroInside(mem, shape, self, a, b);
      InsideInv(mem, shape, self, ZeroPages(mem, a, b));
      FreeNotLive(shape, self);
      ZeroedWords(mem, a, b);
      mem := ZeroPages(mem, a, b);
    }

    method Free(p: int)
      requires Valid() && (p == 0 || p - OVERHEAD in LiveNow())
      modifies this
      ensures Valid() && mem.Keys == old(mem).Keys && end == old(end) && SameEdges(old(shape), shape)
      ensures LiveNow() == old(LiveNow()) - {p - OVERHEAD}
      ensures p != 0 ==> Freed(old(shape), p - OVERHEAD, old(LiveNow())[p - OVERHEAD], shape, mem)
      ensures KeepsPayloads(old(mem), mem, LiveNow())
    {
      hide Inv, KeepsPayloads, Live, Indexed, Granule, InUse, Gathered, FreeBelowIs, FreeAt, Crosses, ZeroBetween, AllZero;
      NoNullBlock(mem, shape);
      SelfKeeps(mem, shape);
      if p == 0 { return; }
      ghost var m0, s0 := mem, shape;
      ghost var below, above;
      var self, next, finalSize, reclaim;
      self, next, finalSize, reclaim, below, above := Gather(p - OVERHEAD);
      PutInBin(self, next, finalSize, m0, s0, p - OVERHEAD);
      if reclaim {
        ghost var m1 := mem;
        Reclaim(self, next);
        ghost var a, b :| Pages(self, next, a, b) && ZeroBetween(m1, mem, a, b);
        NowZero(m1, mem, a, b);
        KeepsTransitive2(m0, m1, mem, LiveNow(), LiveNow());
      }
    }

    /** Give back what a chunk has beyond `n` bytes. */
    method Trim(self: int, n: int)
      requires Valid() && self in LiveNow() && SIZE_ALIGN <= n <= LiveNow()[self] && n % SIZE_ALIGN == 0
      modifies this
      ensures Valid() && mem.Keys == old(mem).Keys && end == old(end) && SameEdges(old(shape), shape)
      ensures LiveNow() == old(LiveNow())[self := n]
      ensures KeepsPayloads(old(mem), mem, LiveNow())
    {
      hide Inv, KeepsPayloads, Indexed, Granule, SizeOf, InUse, Live;
      LiveBlock(mem, shape, self);
      BlockFacts(mem, shape, self);
      SelfKeeps(mem, shape);
      var n1 := SizeOf(mem[self].csize);
      SubAligned(n1, n);
      if n >= n1 - DONTCARE { return; }
      ghost var m0, live := mem, LiveNow();
      SplitStep(mem, binmap, shape, self, n, n1 - n);
      var next, split := self + n1, self + n;
      mem := SplitMem(mem, self, n, Block(n1 - n, false));
      shape := SplitShape(shape, self, n, false);
      assert split in LiveNow();
      ghost var m1 := mem;
      Free(split + OVERHEAD);
      assert LiveNow() == live[self := n];
      KeepsFewer(m0, m1, LiveNow(), live[self := n][split := n1 - n]);
      KeepsTransitive2(m0, m1, mem, LiveNow(), LiveNow());
    }

    /** Carve `n` bytes off the head of bin `j` if the rest stays in the same bin. */
    method Pretrim(self: int, n: int, i: int, j: int) returns (ok: bool)
      requires Valid() && 0 <= j < 64 && |shape.bins| == 64 && shape.bins[j] != [] && shape.bins[j][0] == self
      requires SIZE_ALIGN <= n <= MMAP_THRESHOLD && n % SIZE_ALIGN == 0
      requires OfClass(shape, self, j) && n <= shape.blocks[self].size
      modifies this
      ensures Valid() && mem.Keys == old(mem).Keys && end == old(end) && SameEdges(old(shape), shape)
      ensures ok <==> var n1 := old(shape).blocks[self].size; j >= 40 && (j >= i + 3 || (j == 63 && n1 - n > MMAP_THRESHOLD)) && BinIndex(n1 - n) == j
      ensures ok ==> self !in old(LiveNow()) && LiveNow() == old(LiveNow())[self := n]
      ensures !ok ==> shape == old(shape) && mem == old(mem) && binmap == old(binmap)
      ensures KeepsPayloads(old(mem), mem, old(LiveNow()))
    {
      hide Inv, KeepsPayloads, Indexed, Granule, SizeOf, InUse, Live, BinIndex, PretrimMem, PretrimReady, PretrimShape;
      SelfKeeps(mem, shape);
      BlockFacts(mem, shape, self);
      if j < 40 { return false; }
      var n1 := SizeOf(mem[self].csize);
      if j < i + 3 {
        if j != 63 { return false; }
        if n1 - n <= MMAP_THRESHOLD { return false; }
      }
      if BinIndex(n1 - n) != j { return false; }
      CarveStep(mem, binmap, shape, self, n, j);
      mem := PretrimMem(mem, self, n, n1);
      shape := PretrimShape(shape, self, n, j);
      return true;
    }

    /** Ask the system for memory and turn it into one allocated chunk; 0 when it refuses. */
    method ExpandHeap(n: int, os: Grant) returns (c: int)
      requires Valid() && SIZE_ALIGN <= n && n % SIZE_ALIGN == 0 && Honest(os, mem, n + SIZE_ALIGN)
      modifies this
      ensures Valid()
      ensures os.Refused? ==> c == 0 && shape == old(shape) && mem == old(mem)
      ensures os.Granted? ==> c != 0 && c !in old(LiveNow()) && c !in old(shape).blocks && c == GrantAt(old(end), os) && end == os.p + os.n
                              && LiveNow() == old(LiveNow())[c := os.p + os.n - OVERHEAD - c] && os.p + os.n - OVERHEAD - c >= n
      ensures os.Granted? ==> shape == ExtendShape(old(shape), c, os.p + os.n - OVERHEAD - c, os.p == old(end))
      ensures KeepsPayloads(old(mem), mem, old(LiveNow()))
      ensures OnlyGrows(old(mem), mem, os)
    {
      hide Inv, KeepsPayloads, Indexed, Granule, Live, ExtendShape, GrowMem;
      SelfKeeps(mem, shape);
      if os.Refused? { return 0; }
      var inPlace := os.p == end;
      var p, size := if inPlace then os.p else os.p + SIZE_ALIGN, if inPlace then os.n else os.n - SIZE_ALIGN;
      GrowStep(mem, binmap, shape, end, os.p, os.n, inPlace);
      GrowKeys(mem, os.p, os.n, inPlace);
      mem := GrowMem(mem, os.p, os.n, inPlace);
      end := p + size;
      c := p - OVERHEAD;
      shape := ExtendShape(shape, c, size, inPlace);
    }

    /** Take a chunk of at least `n` bytes from bin `j`, which is known to have one. */
    method TakeFromBin(n: int, i: int, j: int) returns (c: int)
      requires Valid() && SIZE_ALIGN <= n <= MMAP_THRESHOLD && n % SIZE_ALIGN == 0
      requires 0 <= j < 64 && |shape.bins| == 64 && shape.bins[j] != [] && Fits(shape, j, n)
      modifies this
      ensures Valid() && mem.Keys == old(mem).Keys && end == old(end) && SameEdges(old(shape), shape)
      ensures c == old(shape).bins[j][0]
      ensures c !in old(LiveNow()) && c in LiveNow() && LiveNow()[c] >= n && LiveNow() == old(LiveNow())[c := LiveNow()[c]]
      ensures KeepsPayloads(old(mem), mem, old(LiveNow()))
    {
      hide Inv, KeepsPayloads, Indexed, Granule, SizeOf, InUse, Live, BinIndex;
      LockBin(j);
      BinHead(mem, shape, j);
      c := mem[Sentinel(j)].next;
      BlockFacts(mem, shape, c);
      ghost var m1, s1 := mem, shape;
      var ok := Pretrim(c, n, i, j);
      ghost var m2 := mem;
      if !ok {
        Unbin(c, j, 0);
        LiveUnbin(s1, c, j, 0);
        LiveIsAllocated(s1, c);
      }
      KeepsTransitive2(old(mem), m1, m2, old(LiveNow()), old(LiveNow()));
      KeepsTransitive2(old(mem), m1, mem, old(LiveNow()), old(LiveNow()));
    }

    /** Grow the heap, merging the new memory with a free chunk just below it; 0 when the system refuses. */
    method TakeFromSystem(n: int, os: Grant) returns (c: int)
      requires Valid() && SIZE_ALIGN <= n && n % SIZE_ALIGN == 0 && Honest(os, mem, n + SIZE_ALIGN)
      modifies this
      ensures Valid()
      ensures os.Refused? ==> c == 0 && shape == old(shape) && mem == old(mem)
      ensures os.Granted? ==> c != 0 && c !in old(LiveNow()) && c in LiveNow() && LiveNow()[c] >= n
                              && LiveNow() == old(LiveNow())[c := os.p + os.n - OVERHEAD - c]
      ensures os.Granted? ==> FromSystem(old(shape), old(end), os, shape, c)
      ensures KeepsPayloads(old(mem), mem, old(LiveNow()))
      ensures OnlyGrows(old(mem), mem, os)
    {
      hide Inv, KeepsPayloads, Indexed, Granule, SizeOf, InUse, Live, BinIndex, NoFreeBelow, Joinable, JoinShape, ExtendShape, FromSystem, GrantAt;
      c := ExpandHeap(n, os);
      if c == 0 { return; }
      ghost var m1, s1, live1 := mem, shape, LiveNow();
      LiveBlock(mem, shape, c);
      var ok := AllocRev(c);
      ghost var m2 := mem;
      KeepsTransitive2(old(mem), m1, mem, old(LiveNow()), live1);
      if ok {
        var x := c;
        c := x - SizeOf(mem[x].psize);
        LiveTaken(s1, shape, c);
        LiveBlock(mem, shape, x);
        ghost var hi := x + shape.blocks[x].size;
        MergeStep(mem, binmap, shape, c, x, hi);
        MergeLive(mem, shape, c, x, old(LiveNow()));
        var total := SizeOf(mem[x].csize) + SizeOf(mem[c].csize);
        KeepsTransitive2(old(mem), m2, JoinMem(mem, c, hi), old(LiveNow()), LiveNow());
        mem := JoinMem(mem, c, c + total);
        shape := JoinShape(shape, c, hi);
      }
      SystemChunk(old(shape), old(end), os, s1, shape, c);
    }

    method Malloc(n: nat, os: Grant) returns (r: Pointer)
      requires Valid() && n < WORD
      requires AdjustSize(n).Adjusted? ==> Honest(os, mem, AdjustSize(n).n + SIZE_ALIGN)
      modifies this
      ensures Valid() && OnlyGrows(old(mem), mem, os)
      ensures !r.Heap? ==> shape == old(shape) && mem == old(mem)
      ensures r.Null? && AdjustSize(n).Adjusted? ==> os.Refused? && NoneFor(old(shape), AdjustSize(n).n)
      ensures r.Mmapped? <==> AdjustSize(n).Adjusted? && AdjustSize(n).n > MMAP_THRESHOLD
      ensures r.Heap? ==> AdjustSize(n).Adjusted? && r.address % SIZE_ALIGN == 0 && r.address != 0
      ensures r.Heap? ==> var c := r.address - OVERHEAD;
                c !in old(LiveNow()) && LiveNow() == old(LiveNow())[c := AdjustSize(n).n]
                && Origin(old(shape), old(end), os, shape, AdjustSize(n).n, c)
      ensures KeepsPayloads(old(mem), mem, old(LiveNow()))
    {
      hide Inv, KeepsPayloads, Indexed, Granule, SizeOf, InUse, Live, BinIndexUp, And, NegPow2, AdjustSize, Honest, FirstSet;
      SelfKeeps(mem, shape);
      AdjustSizeMeaning(n);
      var adjusted := AdjustSize(n);
      if adjusted.TooLarge? { return Null; }
      var size := adjusted.n;
      if size > MMAP_THRESHOLD { return Mmapped; }
      UpIsNextClass(size);
      var i := BinIndexUp(size);
      BinCount(mem, shape);
      MaskMeaning(binmap, shape, i);
      var mask := And(binmap, NegPow2(i, 64));
      var c;
      if mask == 0 {
        c := TakeFromSystem(size, os);
        if c == 0 { return Null; }
      } else {
        var j := FirstSet(mask);
        BinFits(mem, shape, j, size);
        c := TakeFromBin(size, i, j);
      }
      ghost var m1, live1 := mem, LiveNow();
      Trim(c, size);
      KeepsFewer(m1, mem, old(LiveNow()), LiveNow());
      KeepsTransitive2(old(mem), m1, mem, old(LiveNow()), old(LiveNow()));
      LiveAligned(mem, shape, c);
      return Heap(c + OVERHEAD);
    }

    /** First half of `realloc`: absorb a free successor if the chunk is too small for `n`. */
    method GrowInPlace(self: int, n: int) returns (n1: int)
      requires Valid() && self in LiveNow()
      modifies this
      ensures Valid() && mem.Keys == old(mem).Keys && end == old(end) && SameEdges(old(shape), shape)
      ensures self in old(shape).blocks && n1 == if n <= old(LiveNow())[self] then old(LiveNow())[self] else RoomAt(old(shape), self)
      ensures n1 >= old(LiveNow())[self] && LiveNow() == old(LiveNow())[self := n1]
      ensures n1 < n ==> LessFree(old(shape), shape, n)
      ensures KeepsPayloads(old(mem), mem, old(LiveNow()))
    {
      hide Inv, KeepsPayloads, Indexed, Granule, SizeOf, InUse, Live, BinIndex, Joinable, JoinShape;
      LiveBlock(mem, shape, self);
      BlockFacts(mem, shape, self);
      SelfKeeps(mem, shape);
      ghost var s0, live0 := shape, LiveNow();
      n1 := SizeOf(mem[self].csize);
      var next := self + n1;
      // a footer that disagrees with the header would be a crash
      if mem[next].psize != mem[self].csize { assert false; }
      var ok := false;
      if n > n1 { ok := AllocFwd(next); }
      ghost var m1 := mem;
      if ok {
        LiveTaken(s0, shape, next);
        LiveBlock(mem, shape, next);
        LiveBlock(mem, shape, self);
        ghost var hi := next + shape.blocks[next].size;
        MergeStep(mem, binmap, shape, self, next, hi);
        MergeOver(mem, shape, self, next, live0);
        if s0.blocks[next].size < n { AbsorbedLess(old(mem), s0, shape, self, next, n); }
        KeepsTransitive2(old(mem), m1, JoinMem(mem, self, hi), live0, LiveNow());
        n1 := n1 + SizeOf(mem[next].csize);
        next := next + SizeOf(mem[next].csize);
        shape := JoinShape(shape, self, hi);
      } else {
        RewriteSame(mem, self, n1);
        assert live0 == live0[self := n1];
      }
      mem := SetPsize(SetCsize(mem, self, n1 + 1), next, n1 + 1);
    }

    /** memcpy of a chunk's payload into a larger chunk. */
    method CopyPayload(dst: int, src: int, size: int)
      requires Valid() && src in LiveNow() && dst in LiveNow() && src != dst
      requires 0 < size <= LiveNow()[src] && size <= LiveNow()[dst]
      modifies `mem
      ensures Valid() && mem.Keys == old(mem).Keys
      ensures KeepsPayloads(old(mem), mem, LiveNow() - {dst}) && SameContents(old(mem), src, mem, dst, size)
    {
      hide Inv, KeepsPayloads, Indexed, Granule, Live, SameContents, CopyMem;
      LiveBlock(mem, shape, dst);
      LiveBlock(mem, shape, src);
      BlockFacts(mem, shape, dst);
      CopyStep(mem, shape, dst, src, size);
      InsideInv(mem, shape, dst, CopyMem(mem, dst, src, size));
      mem := CopyMem(mem, dst, src, size);
    }

    /** Last resort of `realloc`: allocate, copy, release. `m0` and `live0` are the state before `realloc` grew the chunk. */
    method Move(p: int, size: int, n0: int, ghost m0: Memory, ghost live0: map<int, int>, os: Grant) returns (r: Pointer)
      requires Valid() && p - OVERHEAD in LiveNow() && SIZE_ALIGN <= size < LIMIT && size % SIZE_ALIGN == 0
      requires KeepsPayloads(m0, mem, live0) && p - OVERHEAD in live0 && 0 < live0[p - OVERHEAD] == n0 <= LiveNow()[p - OVERHEAD] < size
      requires LiveNow() == live0[p - OVERHEAD := LiveNow()[p - OVERHEAD]] && Honest(os, mem, size + SIZE_ALIGN)
      modifies this
      ensures Valid() && OnlyGrows(old(mem), mem, os)
      ensures r.Null? ==> (os.Refused? && NoneFor(old(shape), size)) || AdjustSize(size - OVERHEAD).TooLarge?
      ensures r.Null? ==> KeepsPayloads(m0, mem, live0) && LiveNow() == old(LiveNow())
      ensures !r.Null? ==> KeepsPayloads(m0, mem, live0 - {p - OVERHEAD})
      ensures r.Mmapped? ==> size > MMAP_THRESHOLD && LiveNow() == live0 - {p - OVERHEAD}
      ensures r.Heap? ==> var c := r.address - OVERHEAD;
                && r.address % SIZE_ALIGN == 0 && r.address != 0
                && c !in live0 && LiveNow() == (live0 - {p - OVERHEAD})[c := size]
                && SameContents(m0, p - OVERHEAD, mem, c, Min(n0, size))
    {
      hide Inv, KeepsPayloads, Indexed, Granule, SizeOf, InUse, Live, AdjustSize, Honest, SameContents;
      var self := p - OVERHEAD;
      ghost var m1, live1 := mem, LiveNow();
      LiveBlock(mem, shape, self);
      BlockFacts(mem, shape, self);
      AgainAdjusted(size);
      r := Malloc(size - OVERHEAD, os);
      ghost var m2, live2 := mem, LiveNow();
      KeepsTransitive(m0, m1, m2, live0, live1);
      if r.Null? { return; }
      if r.Heap? {
        var c := r.address - OVERHEAD;
        CopyPayload(c, self, n0);
        ghost var m3 := mem;
        LiveBlock(mem, shape, c);
        BlockFacts(mem, shape, c);
        Free(p);
        assert LiveNow() == (live0 - {self})[c := size];
        ReallocCopied(m0, m2, m3, mem, live0, live2, LiveNow(), self, c, n0, size);
      } else {
        Free(p);
        assert LiveNow() == live0 - {self};
        KeepsFewer(m0, m2, LiveNow(), live0);
        KeepsTransitive2(m0, m2, mem, LiveNow(), LiveNow());
      }
    }

    method Realloc(p: int, n: nat, os: Grant) returns (r: Pointer)
      requires Valid() && n < WORD && (p == 0 || p - OVERHEAD in LiveNow())
      requires AdjustSize(n).Adjusted? ==> Honest(os, mem, AdjustSize(n).n + SIZE_ALIGN)
      modifies this
      ensures Valid() && OnlyGrows(old(mem), mem, os)
      ensures KeepsPayloads(old(mem), mem, old(LiveNow()) - {p - OVERHEAD})
      // success: one chunk of the adjusted size replaces the old one and holds its contents
      ensures r.Heap? ==> AdjustSize(n).Adjusted? && r.address % SIZE_ALIGN == 0 && r.address != 0
      ensures r.Heap? ==> var c := r.address - OVERHEAD;
                && (r.address == p || c !in old(LiveNow()))
                && LiveNow() == (old(LiveNow()) - {p - OVERHEAD})[c := AdjustSize(n).n]
                && (p != 0 ==> SameContents(old(mem), p - OVERHEAD, mem, c,
                                            Min(old(LiveNow())[p - OVERHEAD], AdjustSize(n).n)))
      // in place exactly if the chunk, or the chunk and a free one after it, are large enough
      ensures p != 0 && AdjustSize(n).Adjusted? ==>
                p - OVERHEAD in old(shape).blocks && (r == Heap(p) <==> AdjustSize(n).n <= RoomAt(old(shape), p - OVERHEAD))
      // failure: the old chunk is still live, no smaller, with its contents
      ensures r.Null? && AdjustSize(n).Adjusted? ==> (os.Refused? && NoneFor(old(shape), AdjustSize(n).n)) || TooLargeAgain(n)
      ensures r.Null? ==> LiveNow().Keys == old(LiveNow()).Keys && KeepsPayloads(old(mem), mem, old(LiveNow()))
                          && forall d :: d in LiveNow() ==> LiveNow()[d] >= old(LiveNow())[d] && (d != p - OVERHEAD ==> LiveNow()[d] == old(LiveNow())[d])
      ensures r.Mmapped? ==> AdjustSize(n).Adjusted? && AdjustSize(n).n > MMAP_THRESHOLD && LiveNow() == old(LiveNow()) - {p - OVERHEAD}
    {
      hide Inv, KeepsPayloads, Indexed, Granule, SizeOf, InUse, Live, AdjustSize, Honest, SameContents, RoomAt, NoneFor, LessFree;
      NoNullBlock(mem, shape);
      SelfKeeps(mem, shape);
      ghost var m0, live0 := mem, LiveNow();
      if p == 0 {
        r := Malloc(n, os);
        assert live0 - {p - OVERHEAD} == live0;
        return;
      }
      AdjustSizeMeaning(n);
      var self := p - OVERHEAD;
      KeepsFewer(mem, mem, live0 - {self}, live0);
      var adjusted := AdjustSize(n);
      if adjusted.TooLarge? { return Null; }
      LiveBlock(mem, shape, self);
      BlockFacts(mem, shape, self);
      RoomAtLeast(mem, shape, self);
      var size, n0 := adjusted.n, SizeOf(mem[self].csize);
      var n1 := GrowInPlace(self, size);
      ghost var m1, s1, live1 := mem, shape, LiveNow();
      if size <= n1 {
        Trim(self, size);
        ReallocTrimmed(m0, m1, mem, live0, live1, self, n0, size);
        LiveAligned(mem, shape, self);
        return Heap(p);
      }
      SameHonest(os, m0, mem, size + SIZE_ALIGN);
      r := Move(p, size, n0, m0, live0, os);
      if NoneFor(s1, size) { StillNone(m0, old(shape), m1, s1, size); }
      KeepsFewer(m0, mem, live0 - {self}, if r.Null? then live0 else live0 - {self});
    }
  }

  /** Everything `unbin` relies on and establishes, in one place. */
  lemma UnbinStep(m: Memory, binmap: nat, s: Shape, c: int, i: int, k: nat)
    requires Inv(m, s) && Indexed(binmap, s) && 0 <= i < 64 && k < |s.bins[i]| && s.bins[i][k] == c
    ensures c in s.blocks && s.blocks[c].free && |s.bins| == 64 && c in m && UnbinReady(m, c)
    ensures Pow2(i) < Pow2(64)
    ensures Indexed(if m[c].prev == m[c].next then And(binmap, Not(Pow2(i), 64)) else binmap, UnbinShape(s, c, i, k))
    ensures Inv(UnbinMem(m, c), UnbinShape(s, c, i, k))
    ensures KeepsPayloads(m, UnbinMem(m, c), Live(s)) && UnbinMem(m, c).Keys == m.Keys
  {
    hide Inv, KeepsPayloads, Live, Indexed, BinIndex, FlagMem, UnlinkMem, UnbinMem, UnbinReady, Pow2, And, SizeOf, InUse;
    BinCount(m, s);
    UnbinInv(m, s, i, k);
    UnbinKeeps(m, s, i, k);
    BlockFacts(m, s, c);
    UnbinIndexed(binmap, s, c, i, k);
    UnbinWrites(m, c, s.blocks[c].size);
  }

  lemma NoNullBlock(m: Memory, s: Shape)
    requires Inv(m, s)
    ensures -OVERHEAD !in Live(s) && -OVERHEAD !in s.blocks
  {
    StaticNotBlock(s, -OVERHEAD);
  }

  /** Below a chunk that was free there is no free chunk. */
  lemma BelowTaken(m: Memory, s: Shape, s': Shape, c: int)
    requires Inv(m, s) && Taken(s, s', c)
    ensures NoFreeBelow(s', c)
  {
    NotBothFree(m, s, c);
    TakenFewer(s, s', c, c);
  }

  /** Above a chunk that was free there is no free chunk. */
  lemma AboveTaken(m: Memory, s: Shape, s': Shape, c: int)
    requires Inv(m, s) && Taken(s, s', c)
    ensures NoFreeAt(s', c + s.blocks[c].size)
  {
    NotBothFree(m, s, c);
    TakenFewer(s, s', c, c + s.blocks[c].size);
  }

  lemma BelowSize(m: Memory, s: Shape, p: int)
    requires Inv(m, s) && p in s.blocks
    ensures var c := p + s.blocks[p].size; c in m && SizeOf(m[c].psize) == s.blocks[p].size
  {
    BlockFacts(m, s, p);
    hide Inv;
    EvenSize(s.blocks[p].size);
  }

  lemma EmptyHeap(m: Memory, s: Shape)
    requires forall i :: 0 <= i < 64 ==> Sentinel(i) in m && m[Sentinel(i)].next == 0
    requires s == Shape(map[], {}, {}, seq(64, i => []))
    ensures Inv(m, s) && Indexed(0, s) && Live(s) == map[]
  {
    hide BinIndex;
    forall i | 0 <= i < 64 ensures !Bit(0, i) { BitZero(i); }
  }
}
