/**
 Whole runs of a client of the allocator: any script of malloc, realloc, free and writes to its own
 memory, with any honest answers of the system. What the client sees is a map from its pointers to
 sizes and contents, and every command changes that map exactly as a client expects.
 */
module HeapClient {
  import opened Basics
  import opened SizeClass
  import opened HeapShape
  import opened HeapOps
  import opened HeapFacts
  import opened Coalescing
  import opened Allocator

  datatype Command =
    | CallMalloc(n: nat, os: Grant)
    | CallRealloc(p: int, n: nat, os: Grant)
    | CallFree(p: int)
    | Store(p: int, offset: nat, value: Chunk)   // one granule of the payload

  // ----- what a client expects

  /** An allocation: its size with the header, and its payload granule by granule. */
  datatype Held = Held(size: int, cells: seq<Chunk>)

  type State = map<int, Held>

  /** The first granule of a chunk begins with its header, which is not the client's. */
  function Payload(g: Chunk): Chunk {
    Chunk(0, 0, g.next, g.prev)
  }

  /** A new allocation is aligned, large enough, and shares no byte with the others. */
  ghost predicate Separate(n: nat, p: int, h: Held, others: State) {
    && p != 0 && p % SIZE_ALIGN == 0 && h.size >= n + OVERHEAD
    && forall q :: q in others ==> p + h.size <= q || q + others[q].size <= p
  }

  predicate SamePrefix(a: seq<Chunk>, b: seq<Chunk>) {
    forall k :: 0 <= k < |a| && k < |b| ==> a[k] == b[k]
  }

  /** What there is: the client's allocations, and the addresses the allocator got from the system. */
  datatype Scene = Scene(held: State, mapped: set<int>)

  /** The system's answer is one it may give: aligned memory, enough of it, that is not in use. */
  predicate Gives(os: Grant, mapped: set<int>, request: int) {
    && os.Granted? && os.n >= request && os.n % SIZE_ALIGN == 0 && os.p % SIZE_ALIGN == 0
    && STATIC_TOP < os.p && os.p + os.n < LIMIT
    && forall a :: a in mapped ==> a < os.p || os.p + os.n <= a
  }

  /** The request is too large, or the system does not give memory for it. */
  predicate Hopeless(n: nat, os: Grant, mapped: set<int>) {
    n < WORD ==> AdjustSize(n).TooLarge? || !Gives(os, mapped, AdjustSize(n).n + SIZE_ALIGN)
  }

  /** Only memory that the system grants comes into use, and none goes out of use. */
  ghost predicate Widens(before: set<int>, after: set<int>, os: Grant) {
    before <= after && forall a :: a in after ==> a in before || (os.Granted? && os.p <= a < os.p + os.n)
  }

  /** malloc adds exactly the pointer it returns. It returns a mapping of its own for large requests only, and null only if it must. */
  ghost predicate MallocStep(n: nat, os: Grant, r: Pointer, before: Scene, after: Scene) {
    && Widens(before.mapped, after.mapped, os)
    && match r
       case Null => after.held == before.held && Hopeless(n, os, before.mapped)
       case Mmapped => after.held == before.held && Large(n)
       case Heap(p) =>
         p !in before.held && p in after.held && after.held == before.held[p := after.held[p]] && Separate(n, p, after.held[p], before.held)
  }

  predicate Large(n: nat) {
    n < WORD ==> AdjustSize(n).Adjusted? && AdjustSize(n).n > MMAP_THRESHOLD
  }

  /** The adjusted size is not more than an allocation has. */
  predicate Fitting(n: nat, size: int) {
    n < WORD && AdjustSize(n).Adjusted? && AdjustSize(n).n <= size
  }

  /** realloc stays where it is if there is room, fails and changes nothing, if it must, or puts the new allocation in the place of the old one, with its contents up to the smaller size. */
  ghost predicate ReallocStep(p: int, n: nat, os: Grant, r: Pointer, before: Scene, after: Scene)
    requires p in before.held
  {
    && Widens(before.mapped, after.mapped, os) && (Fitting(n, before.held[p].size) ==> r == Heap(p))
    && var others := before.held - {p};
       match r
       case Null => after.held == before.held && (Hopeless(n, os, before.mapped) || (n < WORD && TooLargeAgain(n)))
       case Mmapped => after.held == others && Large(n)
       case Heap(q) =>
         && (q == p || q !in before.held) && q in after.held && after.held == others[q := after.held[q]]
         && Separate(n, q, after.held[q], others) && SamePrefix(before.held[p].cells, after.held[q].cells)
  }

  /** One granule of one allocation changes, to the value stored. */
  function Stored(held: State, p: int, offset: nat, value: Chunk): State
    requires p in held && offset < |held[p].cells|
  {
    held[p := held[p].(cells := held[p].cells[offset := if offset == 0 then Payload(value) else value])]
  }

  ghost predicate Step(cmd: Command, r: Pointer, before: Scene, after: Scene) {
    match cmd
    case CallMalloc(n, os) => MallocStep(n, os, r, before, after)
    case CallRealloc(p, n, os) =>
      if p in before.held then ReallocStep(p, n, os, r, before, after)
      else if p == 0 then MallocStep(n, os, r, before, after) else after == before
    case CallFree(p) => after == before.(held := before.held - {p})
    case Store(p, offset, value) =>
      if p in before.held && offset < |before.held[p].cells| then after == before.(held := Stored(before.held, p, offset, value))
      else after == before
  }

  // ----- what the heap holds for the client

  function Granules(m: Memory, c: int, size: int): (cells: seq<Chunk>)
    requires size >= 0
    ensures |cells| == size / SIZE_ALIGN
  {
    seq(size / SIZE_ALIGN, k requires 0 <= k => if k == 0 then Payload(At(m, c)) else At(m, c + SIZE_ALIGN * k))
  }

  function At(m: Memory, a: int): Chunk {
    if a in m then m[a] else Chunk(0, 0, 0, 0)
  }

  function Seen(m: Memory, held: map<int, int>): State
    requires SizesHeld(held)
  {
    map p | p in held :: Held(held[p], Granules(m, p - OVERHEAD, held[p]))
  }

  ghost predicate Owned(live: map<int, int>, p: int, size: int) {
    && p - OVERHEAD in live && 0 < size <= live[p - OVERHEAD] && size % SIZE_ALIGN == 0 && p % SIZE_ALIGN == 0
  }

  ghost predicate Owns(live: map<int, int>, held: map<int, int>) {
    forall p :: p in held ==> Owned(live, p, held[p])
  }

  lemma SameGranules(m: Memory, m': Memory, c: int, size: int, live: int)
    requires SamePayload(m, m', c, live) && 0 <= size <= live && Granule(c)
    ensures Granules(m', c, size) == Granules(m, c, size)
  {
    forall k | 0 < k < size / SIZE_ALIGN ensures At(m', c + SIZE_ALIGN * k) == At(m, c + SIZE_ALIGN * k) {
      assert Granule(c + SIZE_ALIGN * k);
    }
  }

  lemma MovedGranules(m: Memory, c: int, m': Memory, c': int, size: int)
    requires SameContents(m, c, m', c', size) && size >= 0 && Granule(c)
    ensures Granules(m', c', size) == Granules(m, c, size)
  {
    forall k | 0 < k < size / SIZE_ALIGN ensures At(m', c' + SIZE_ALIGN * k) == At(m, c + SIZE_ALIGN * k) {
      assert Granule(c + SIZE_ALIGN * k);
      assert c' + ((c + SIZE_ALIGN * k) - c) == c' + SIZE_ALIGN * k;
    }
  }

  lemma GranulesPrefix(m: Memory, c: int, size: int, more: int)
    requires 0 <= size <= more
    ensures size / SIZE_ALIGN <= more / SIZE_ALIGN && Granules(m, c, more)[..size / SIZE_ALIGN] == Granules(m, c, size)
  {}

  lemma OwnedFacts(live: map<int, int>, held: map<int, int>)
    requires Owns(live, held)
    ensures forall p :: p in held ==> p - OVERHEAD in live && 0 < held[p] <= live[p - OVERHEAD] && held[p] % SIZE_ALIGN == 0 && p % SIZE_ALIGN == 0 && Granule(p - OVERHEAD)
  {
    forall p | p in held ensures p - OVERHEAD in live && 0 < held[p] <= live[p - OVERHEAD] && held[p] % SIZE_ALIGN == 0 && p % SIZE_ALIGN == 0 && Granule(p - OVERHEAD) {
      assert Owned(live, p, held[p]);
    }
  }

  lemma OwnsKept(live: map<int, int>, held: map<int, int>, live': map<int, int>, held': map<int, int>)
    requires Owns(live, held)
    requires forall p :: p in held' ==> p in held && held'[p] == held[p]
    requires forall p :: p in held' && p - OVERHEAD in live ==> p - OVERHEAD in live' && live'[p - OVERHEAD] >= live[p - OVERHEAD]
    ensures Owns(live', held')
  {
    forall p | p in held' ensures Owned(live', p, held'[p]) { assert Owned(live, p, held[p]); }
  }

  lemma OwnsMore(live: map<int, int>, held: map<int, int>, p: int, size: int)
    requires Owns(live, held) && Owned(live, p, size)
    ensures Owns(live, held[p := size])
  {
    var held' := held[p := size];
    forall q | q in held' ensures Owned(live, q, held'[q]) { if q != p { assert Owned(live, q, held[q]); } }
  }

  /** Two allocations of the client share no byte. */
  lemma OwnedApart(m: Memory, s: Shape, held: map<int, int>, p: int, q: int)
    requires Inv(m, s) && Owns(Live(s), held) && p in held && q in held && p != q
    ensures p + held[p] <= q || q + held[q] <= p
  {
    hide Tagged, Mapped, Linked, Binned, Coalesced;
    assert Owned(Live(s), p, held[p]) && Owned(Live(s), q, held[q]);
    LiveDisjoint(s, p - OVERHEAD, q - OVERHEAD);
  }

  ghost predicate SizesHeld(held: map<int, int>) {
    forall p :: p in held ==> held[p] >= 0
  }

  lemma RoomOwned(m: Memory, s: Shape, held: map<int, int>, p: int)
    requires Inv(m, s) && Owns(Live(s), held) && p in held
    ensures p - OVERHEAD in s.blocks && held[p] <= RoomAt(s, p - OVERHEAD)
  {
    hide Inv, RoomAt;
    assert Owned(Live(s), p, held[p]);
    LiveBlock(m, s, p - OVERHEAD);
    RoomAtLeast(m, s, p - OVERHEAD);
  }

  /** Allocations whose granules are kept are seen unchanged. */
  lemma SeenSame(m: Memory, m': Memory, held: map<int, int>)
    requires SizesHeld(held)
    requires forall p :: p in held ==> Granules(m', p - OVERHEAD, held[p]) == Granules(m, p - OVERHEAD, held[p])
    ensures Seen(m', held) == Seen(m, held)
  {
    hide Granules;
  }

  /** What the allocator keeps stays owned and is seen unchanged. */
  lemma StillOwned(live: map<int, int>, m: Memory, held: map<int, int>, live': map<int, int>, m': Memory, held': map<int, int>, kept: map<int, int>)
    requires Owns(live, held) && KeepsPayloads(m, m', kept) && SizesHeld(held')
    requires forall p :: p in held' ==> p in held && held'[p] == held[p]
    requires forall p :: p in held' && p - OVERHEAD in live ==>
               p - OVERHEAD in live' && live'[p - OVERHEAD] >= live[p - OVERHEAD] && p - OVERHEAD in kept && kept[p - OVERHEAD] == live[p - OVERHEAD]
    ensures Owns(live', held') && Seen(m', held') == Seen(m, held')
  {
    hide KeepsPayloads, Granules, Seen;
    OwnsKept(live, held, live', held');
    forall p | p in held' ensures Granules(m', p - OVERHEAD, held'[p]) == Granules(m, p - OVERHEAD, held'[p]) {
      assert Owned(live, p, held[p]);
      GranulesKept(m, m', p, held[p], kept);
    }
    SeenSame(m, m', held');
  }

  lemma GranulesKept(m: Memory, m': Memory, p: int, size: int, kept: map<int, int>)
    requires KeepsPayloads(m, m', kept) && p % SIZE_ALIGN == 0 && p - OVERHEAD in kept && 0 <= size <= kept[p - OVERHEAD]
    ensures Granules(m', p - OVERHEAD, size) == Granules(m, p - OVERHEAD, size)
  {
    assert SamePayload(m, m', p - OVERHEAD, kept[p - OVERHEAD]) && Granule(p - OVERHEAD);
    hide SamePayload;
    SameGranules(m, m', p - OVERHEAD, size, kept[p - OVERHEAD]);
  }

  /** Adding an allocation adds exactly that one to what is seen, apart from the others. */
  lemma SeenMore(m: Memory, s: Shape, held: map<int, int>, p: int, size: int, n: nat)
    requires Inv(m, s) && SizesHeld(held) && Owns(Live(s), held[p := size]) && p !in held && size >= n + OVERHEAD && p != 0 && p % SIZE_ALIGN == 0
    ensures SizesHeld(held[p := size]) && p !in Seen(m, held) && p in Seen(m, held[p := size])
    ensures Seen(m, held[p := size]) == Seen(m, held)[p := Seen(m, held[p := size])[p]]
    ensures Seen(m, held[p := size])[p] == Held(size, Granules(m, p - OVERHEAD, size))
    ensures Separate(n, p, Seen(m, held[p := size])[p], Seen(m, held))
  {
    hide Inv, Live, Owns, Granules;
    var held' := held[p := size];
    forall q | q in held ensures p + size <= q || q + held[q] <= p { OwnedApart(m, s, held', p, q); }
  }

  /** The answer the system gives to a request, if it is honest. */
  function Answer(os: Grant, m: Memory, n: nat): (r: Grant)
    requires n < WORD
    ensures AdjustSize(n).Adjusted? ==> Honest(r, m, AdjustSize(n).n + SIZE_ALIGN)
  {
    if AdjustSize(n).Adjusted? && !Honest(os, m, AdjustSize(n).n + SIZE_ALIGN) then Refused else os
  }

  /** An honest answer that is not refused gives memory. */
  lemma AnswerFacts(os: Grant, m: Memory, n: nat)
    requires n < WORD
    ensures Answer(os, m, n).Refused? ==> Hopeless(n, os, m.Keys)
  {}

  lemma GrowsWidens(os: Grant, m: Memory, n: nat, m': Memory)
    requires n < WORD && OnlyGrows(m, m', Answer(os, m, n))
    ensures Widens(m.Keys, m'.Keys, os)
  {
    forall a | a in m.Keys ensures a in m'.Keys { assert a in m; }
    forall a | a in m'.Keys ensures a in m.Keys || (os.Granted? && os.p <= a < os.p + os.n) { assert a in m'; }
  }

  /** The static list heads, all that is mapped at first. */
  function Sentinels(): set<int> {
    set i: int | 0 <= i < 64 :: Sentinel(i)
  }

  class Client {
    const heap: Allocator
    var held: map<int, int>

    ghost predicate Valid()
      reads this, heap
    {
      heap.Valid() && Owns(heap.LiveNow(), held) && SizesHeld(held)
    }

    /** What there is now. */
    ghost function View(): Scene
      requires Valid()
      reads this, heap
    {
      Scene(Seen(heap.mem, held), heap.mem.Keys)
    }

    constructor ()
      ensures Valid() && fresh(heap) && View() == Scene(map[], Sentinels())
    {
      heap := new Allocator();
      held := map[];
    }

    /** One command; what the client does not hold is left alone. */
    method Perform(cmd: Command) returns (r: Pointer)
      requires Valid() && (cmd.CallMalloc? || cmd.CallRealloc? ==> cmd.n < WORD)
      modifies this, heap
      ensures Valid() && Step(cmd, r, old(View()), View())
    {
      hide Owns, Inv, Live, MallocStep, ReallocStep, Granules;
      r := Null;
      match cmd {
        case CallMalloc(n, os) => r := DoMalloc(n, os);
        case CallRealloc(p, n, os) =>
          if p in held { r := DoRealloc(p, n, os); } else if p == 0 { r := DoMalloc(n, os); }
        case CallFree(p) =>
          if p in held { DoFree(p); } else { assert View().held - {p} == View().held; }
        case Store(p, offset, value) =>
          if p in held && SIZE_ALIGN * offset < held[p] { DoStore(p, offset, value); } else { OwnedFacts(heap.LiveNow(), held); }
      }
    }

    method DoMalloc(n: nat, os: Grant) returns (r: Pointer)
      requires Valid() && n < WORD
      modifies this, heap
      ensures Valid() && MallocStep(n, os, r, old(View()), View())
    {
      hide Inv, KeepsPayloads, Indexed, Granule, Live, AdjustSize, Honest, Owns, Granules, Seen, Separate, SizesHeld;
      ghost var m0, live0, held0 := heap.mem, heap.LiveNow(), held;
      AdjustSizeMeaning(n);
      OwnedFacts(live0, held);
      AnswerFacts(os, heap.mem, n);
      hide OnlyGrows, Widens, Hopeless;
      r := heap.Malloc(n, Answer(os, heap.mem, n));
      GrowsWidens(os, m0, n, heap.mem);
      StillOwned(live0, m0, held, heap.LiveNow(), heap.mem, held, live0);
      if r.Heap? {
        var size := AdjustSize(n).n;
        OwnsMore(heap.LiveNow(), held, r.address, size);
        SeenMore(heap.mem, heap.shape, held, r.address, size, n);
        held := held[r.address := size];
      }
    }

    method DoRealloc(p: int, n: nat, os: Grant) returns (r: Pointer)
      requires Valid() && n < WORD && p in held
      modifies this, heap
      ensures Valid() && p in old(View()).held && ReallocStep(p, n, os, r, old(View()), View())
      ensures p - OVERHEAD in old(heap.shape).blocks && (r == Heap(p) <==> Fitting(n, RoomAt(old(heap.shape), p - OVERHEAD)))
    {
      hide Inv, KeepsPayloads, Indexed, Granule, Live, AdjustSize, Honest, SameContents, Owns, Granules, Seen, Separate, SizesHeld, SamePrefix;
      ghost var m0, live0, held0 := heap.mem, heap.LiveNow(), held;
      AdjustSizeMeaning(n);
      OwnedFacts(live0, held);
      NotNull(heap.mem, heap.shape, p);
      RoomOwned(heap.mem, heap.shape, held, p);
      SeenWithout(m0, held, p);
      AnswerFacts(os, heap.mem, n);
      hide OnlyGrows, Widens, Hopeless, TooLargeAgain, RoomAt, NoneFor;
      r := heap.Realloc(p, n, Answer(os, heap.mem, n));
      GrowsWidens(os, m0, n, heap.mem);
      if r.Null? {
        StillOwned(live0, m0, held, heap.LiveNow(), heap.mem, held, live0);
      } else {
        held := held - {p};
        StillOwned(live0, m0, held0, heap.LiveNow(), heap.mem, held, live0 - {p - OVERHEAD});
        if r.Heap? {
          var size := AdjustSize(n).n;
          OwnsMore(heap.LiveNow(), held, r.address, size);
          SeenMore(heap.mem, heap.shape, held, r.address, size, n);
          KeptPrefix(m0, p - OVERHEAD, held0[p], live0[p - OVERHEAD], heap.mem, r.address - OVERHEAD, size);
          held := held[r.address := size];
        }
      }
    }

    method DoFree(p: int)
      requires Valid() && p in held
      modifies this, heap
      ensures Valid() && View() == old(View()).(held := old(View()).held - {p})
    {
      hide Inv, KeepsPayloads, Indexed, Granule, Live, Owns, Granules, Seen, SizesHeld;
      ghost var m0, live0, held0 := heap.mem, heap.LiveNow(), held;
      OwnedFacts(live0, held);
      SeenWithout(m0, held, p);
      heap.Free(p);
      held := held - {p};
      StillOwned(live0, m0, held0, heap.LiveNow(), heap.mem, held, heap.LiveNow());
    }

    /** The client writes one granule of its memory: that granule and nothing else changes. */
    method DoStore(p: int, offset: nat, value: Chunk)
      requires Valid() && p in held && SIZE_ALIGN * offset < held[p]
      modifies this, heap
      ensures Valid() && Step(Store(p, offset, value), Null, old(View()), View())
    {
      hide Inv, KeepsPayloads, Indexed, Live, Owns, Granules, Seen, SizesHeld;
      ghost var m0, s, live := heap.mem, heap.shape, heap.LiveNow();
      var c := p - OVERHEAD;
      OwnedFacts(live, held);
      PayloadMapped(m0, s, c, offset);
      var a := c + SIZE_ALIGN * offset;
      var v := if offset == 0 then heap.mem[a].(next := value.next, prev := value.prev) else value;
      heap.mem := heap.mem[a := v];
      StoreInside(m0, s, c, a, v);
      InsideInv(m0, s, c, heap.mem);
      forall q | q in held - {p} ensures Granules(heap.mem, q - OVERHEAD, held[q]) == Granules(m0, q - OVERHEAD, held[q]) {
        GranulesKept(m0, heap.mem, q, held[q], live - {c});
      }
      StoredGranule(m0, c, held[p], offset, value);
      SeenStored(m0, heap.mem, held, p, offset, if offset == 0 then Payload(value) else value);
    }
  }

  lemma NotNull(m: Memory, s: Shape, p: int)
    requires Inv(m, s) && p - OVERHEAD in Live(s)
    ensures p != 0
  {
    NoNullBlock(m, s);
  }

  lemma SeenWithout(m: Memory, held: map<int, int>, p: int)
    requires SizesHeld(held) && p in held
    ensures SizesHeld(held - {p}) && Seen(m, held - {p}) == Seen(m, held) - {p}
    ensures p in Seen(m, held) && Seen(m, held)[p] == Held(held[p], Granules(m, p - OVERHEAD, held[p]))
    ensures Seen(m, held).Keys == held.Keys
  {
    hide Granules;
  }

  /** The contents that realloc keeps are the cells of the smaller size. */
  lemma KeptPrefix(m: Memory, c: int, held: int, live: int, m': Memory, c': int, size: int)
    requires SameContents(m, c, m', c', Min(live, size)) && 0 <= held <= live && size >= 0 && Granule(c)
    ensures SamePrefix(Granules(m, c, held), Granules(m', c', size))
  {
    var less := Min(live, size);
    MovedGranules(m, c, m', c', less);
    hide SameContents;
    GranulesPrefix(m, c, Min(held, size), less);
    GranulesPrefix(m', c', Min(held, size), less);
    GranulesPrefix(m, c, Min(held, size), held);
    GranulesPrefix(m', c', Min(held, size), size);
    hide Granules;
    var a, b := Granules(m, c, held), Granules(m', c', size);
    var k := Min(held, size) / SIZE_ALIGN;
    assert a[..k] == b[..k];
    forall i | 0 <= i < |a| && i < |b| ensures a[i] == b[i] { assert a[i] == a[..k][i] && b[i] == b[..k][i]; }
  }

  lemma PayloadMapped(m: Memory, s: Shape, c: int, offset: nat)
    requires Inv(m, s) && c in Live(s) && SIZE_ALIGN * offset < Live(s)[c]
    ensures c in s.blocks && s.blocks[c] == Block(Live(s)[c], false) && c in m && c + SIZE_ALIGN * offset in m && Granule(c + SIZE_ALIGN * offset) && Granule(c) && STATIC_TOP < c
  {
    hide Inv, Live;
    LiveBlock(m, s, c);
    SelfKeeps(m, s);
    BlockFacts(m, s, c);
    assert SamePayload(m, m, c, Live(s)[c]);
    assert Granule(c + SIZE_ALIGN * offset);
  }

  lemma StoreInside(m: Memory, s: Shape, c: int, a: int, v: Chunk)
    requires c in s.blocks && !s.blocks[c].free && c in m && a in m && c <= a < c + s.blocks[c].size
    requires a == c ==> v.psize == m[a].psize && v.csize == m[a].csize
    ensures WritesInside(m, m[a := v], s, c)
  {}

  lemma StoredGranule(m: Memory, c: int, size: int, offset: nat, value: Chunk)
    requires SIZE_ALIGN * offset < size && size % SIZE_ALIGN == 0 && c + SIZE_ALIGN * offset in m
    ensures offset < |Granules(m, c, size)|
    ensures var a := c + SIZE_ALIGN * offset;
            var v := if offset == 0 then m[a].(next := value.next, prev := value.prev) else value;
            Granules(m[a := v], c, size) == Granules(m, c, size)[offset := if offset == 0 then Payload(value) else value]
  {}

  lemma SeenStored(m: Memory, m': Memory, held: map<int, int>, p: int, offset: nat, cell: Chunk)
    requires SizesHeld(held) && p in held && offset < |Granules(m, p - OVERHEAD, held[p])|
    requires forall q :: q in held - {p} ==> Granules(m', q - OVERHEAD, held[q]) == Granules(m, q - OVERHEAD, held[q])
    requires Granules(m', p - OVERHEAD, held[p]) == Granules(m, p - OVERHEAD, held[p])[offset := cell]
    ensures p in Seen(m, held) && offset < |Seen(m, held)[p].cells|
    ensures Seen(m', held) == Seen(m, held)[p := Seen(m, held)[p].(cells := Seen(m, held)[p].cells[offset := cell])]
  {
    hide Granules;
  }

  // ----- whole runs

  ghost predicate Runs(script: seq<Command>, results: seq<Pointer>, trace: seq<Scene>) {
    && |results| == |script| && |trace| == |script| + 1
    && forall i :: 0 <= i < |script| ==> Step(script[i], results[i], trace[i], trace[i + 1])
  }

  /** Any script runs from an empty heap: the trace of what the client sees begins with nothing, takes
      every command as a client expects, and ends with what is in the heap. A command on memory the
      client does not hold is left out. */
  method Run(script: seq<Command>) returns (client: Client, results: seq<Pointer>, ghost trace: seq<Scene>)
    requires forall i :: 0 <= i < |script| ==> (script[i].CallMalloc? || script[i].CallRealloc? ==> script[i].n < WORD)
    ensures client.Valid() && Runs(script, results, trace) && trace[0] == Scene(map[], Sentinels()) && trace[|script|] == client.View()
  {
    hide Owns, Inv, Live, SizesHeld, MallocStep, ReallocStep, Granules, Seen;
    client := new Client();
    results, trace := [], [client.View()];
    var i := 0;
    while i < |script|
      invariant i <= |script| && client.Valid() && fresh(client) && fresh(client.heap)
      invariant Runs(script[..i], results, trace) && trace[0] == Scene(map[], Sentinels()) && trace[i] == client.View()
    {
      var r := client.Perform(script[i]);
      RunsMore(script, i, results, trace, r, client.View());
      results, trace := results + [r], trace + [client.View()];
      i := i + 1;
    }
    assert script[..i] == script;
  }

  lemma RunsMore(script: seq<Command>, i: nat, results: seq<Pointer>, trace: seq<Scene>, r: Pointer, after: Scene)
    requires i < |script| && Runs(script[..i], results, trace) && Step(script[i], r, trace[i], after)
    ensures Runs(script[..i + 1], results + [r], trace + [after])
  {
    hide Step;
    var more := trace + [after];
    forall k | 0 <= k < i + 1 ensures Step(script[..i + 1][k], (results + [r])[k], more[k], more[k + 1]) {
      if k < i { assert Step(script[..i][k], results[k], trace[k], trace[k + 1]); }
    }
  }
}
