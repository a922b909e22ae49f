/**
 Consequences of the heap invariant in the terms the allocator's code reads them:
 size words, neighbours, bins, and the effect of each step on the set of live allocations.
 */
module HeapFacts {
  import opened Basics
  import opened SizeClass
  import opened Bits
  import opened HeapShape
  import opened HeapSteps
  import opened HeapOps
  import opened HeapGrow

  // ----- reading headers

  lemma BlockFacts(m: Memory, s: Shape, c: int)
    requires Inv(m, s) && c in s.blocks
    ensures var n := s.blocks[c].size;
            && c in m && c + n in m && m[c].csize == Tag(s.blocks[c]) && m[c + n].psize == Tag(s.blocks[c])
            && SizeOf(m[c].csize) == n && (InUse(m[c].csize) <==> !s.blocks[c].free)
            && SIZE_ALIGN <= n && n % SIZE_ALIGN == 0 && Granule(c) && Granule(c + n)
            && STATIC_TOP < c && c + n < LIMIT
            && (c + n in s.blocks || c + n in s.ends) && c + n !in s.starts
  {
    assert GoodBlock(s, c) && HasSucc(s, c) && TaggedAs(m, c, s.blocks[c]);
    EvenSize(s.blocks[c].size);
    AddAligned(c, s.blocks[c].size);
  }

  /** The in-use bit of csize tells whether the chunk at a boundary is free; footers look allocated. */
  lemma AboveFacts(m: Memory, s: Shape, x: int)
    requires Inv(m, s) && (x in s.blocks || x in s.ends)
    ensures x in m && STATIC_TOP < x && Granule(x)
    ensures InUse(m[x].csize) <==> !(x in s.blocks && s.blocks[x].free)
    ensures x in s.ends ==> x !in s.blocks
  {
    if x in s.blocks {
      BlockFacts(m, s, x);
    } else {
      assert m[x].csize == 1;
    }
    assert x in s.blocks ==> s.blocks[x].size > 0;
  }

  /** The in-use bit of psize tells whether the chunk below is free, and psize then leads to it. */
  lemma BelowFacts(m: Memory, s: Shape, x: int)
    requires Inv(m, s) && (x in s.blocks || x in s.ends)
    ensures x in m
    ensures !InUse(m[x].psize) ==>
              && x !in s.starts && x - SizeOf(m[x].psize) in s.blocks
              && s.blocks[x - SizeOf(m[x].psize)] == Block(SizeOf(m[x].psize), true)
    ensures InUse(m[x].psize) ==> forall d {:trigger s.blocks[d]} :: d in s.blocks && s.blocks[d].free ==> d + s.blocks[d].size != x
  {
    AboveFacts(m, s, x);
    hide Linked, Binned, Coalesced, Mapped, NoOverlap;
    FreeBelow(m, s, x);
  }

  lemma FreeBelow(m: Memory, s: Shape, x: int)
    requires Sized(s) && NoGap(s) && Tagged(m, s) && (x in s.blocks || x in s.ends) && x in m
    ensures !InUse(m[x].psize) ==>
              && x !in s.starts && x - SizeOf(m[x].psize) in s.blocks
              && s.blocks[x - SizeOf(m[x].psize)] == Block(SizeOf(m[x].psize), true)
    ensures InUse(m[x].psize) ==> forall d {:trigger s.blocks[d]} :: d in s.blocks && s.blocks[d].free ==> d + s.blocks[d].size != x
  {
    if x in s.starts {
      assert m[x].psize == 1;
      forall d | d in s.blocks ensures d + s.blocks[d].size != x { assert HasSucc(s, d); }
    } else {
      assert HasPred(m, s, x);
      var n := SizeOf(m[x].psize);
      assert TaggedAs(m, x - n, s.blocks[x - n]) && GoodBlock(s, x - n);
      EvenSize(n);
      forall d | d in s.blocks && s.blocks[d].free && InUse(m[x].psize) ensures d + s.blocks[d].size != x {
        assert TaggedAs(m, d, s.blocks[d]) && GoodBlock(s, d);
        EvenSize(s.blocks[d].size);
      }
    }
  }

  /** No free chunk follows a free chunk. */
  lemma NotBothFree(m: Memory, s: Shape, c: int)
    requires Inv(m, s) && c in s.blocks && s.blocks[c].free
    ensures c + s.blocks[c].size in s.blocks ==> !s.blocks[c + s.blocks[c].size].free
    ensures forall d {:trigger s.blocks[d]} :: d in s.blocks && s.blocks[d].free ==> d + s.blocks[d].size != c
  {
    assert Apart(s, c);
    forall d | d in s.blocks && s.blocks[d].free ensures d + s.blocks[d].size != c { assert Apart(s, d); }
  }

  // ----- bins

  /** A free chunk is found at some position of the list its size selects. */
  lemma BinPosition(m: Memory, s: Shape, c: int) returns (k: nat)
    requires Inv(m, s) && c in s.blocks && s.blocks[c].free
    ensures 0 <= s.blocks[c].size < WORD
    ensures var i := BinIndex(s.blocks[c].size); 0 <= i < 64 && k < |s.bins[i]| && s.bins[i][k] == c
  {
    hide BinIndex;
    k :| 0 <= k < |s.bins[BinIndex(s.blocks[c].size)]| && s.bins[BinIndex(s.blocks[c].size)][k] == c;
  }

  /** The head word of a bin in use is its first chunk, whose size belongs to that bin. */
  lemma BinHead(m: Memory, s: Shape, j: int)
    requires Inv(m, s) && 0 <= j < 64 && s.bins[j] != []
    ensures Sentinel(j) in m && m[Sentinel(j)].next == s.bins[j][0] && s.bins[j][0] != Sentinel(j)
    ensures OfClass(s, s.bins[j][0], j)
  {
    hide BinIndex;
    ListFacts(m, s, j);
    var h, l := Sentinel(j), s.bins[j];
    assert LinkedBin(m, h, l) && l[0] in l;
    var r := [h] + l + [h];
    assert r[0] == h && r[1] == l[0];
  }

  lemma IndexedClear(binmap: nat, s: Shape, s': Shape, i: nat)
    requires Indexed(binmap, s) && i < 64 && s'.bins == s.bins[i := []]
    ensures Pow2(i) < Pow2(64) && Indexed(And(binmap, Not(Pow2(i), 64)), s')
  {
    Pow2Monotone(i, 64);
    forall j | 0 <= j < 64 ensures Bit(And(binmap, Not(Pow2(i), 64)), j) <==> s'.bins[j] != [] {
      BitAnd(binmap, Not(Pow2(i), 64), j);
      BitNot(Pow2(i), 64, j);
      BitPow2(i, j);
    }
  }

  lemma IndexedSet(binmap: nat, s: Shape, s': Shape, i: nat, l: seq<int>)
    requires Indexed(binmap, s) && i < 64 && s'.bins == s.bins[i := l] && l != []
    ensures Indexed(Or(binmap, Pow2(i)), s')
    ensures And(binmap, Pow2(i)) != 0 ==> Indexed(binmap, s')
  {
    Pow2Monotone(i, 64);
    OrBound(binmap, Pow2(i), 64);
    forall j | 0 <= j < 64 ensures Bit(Or(binmap, Pow2(i)), j) <==> s'.bins[j] != [] {
      BitOr(binmap, Pow2(i), j);
      BitPow2(i, j);
    }
    if !Bit(binmap, i) {
      forall j: nat ensures !Bit(And(binmap, Pow2(i)), j) {
        BitAnd(binmap, Pow2(i), j);
        BitPow2(i, j);
      }
      NoBitsIsZero(And(binmap, Pow2(i)));
    }
  }

  lemma UnbinIndexed(binmap: nat, s: Shape, c: int, i: nat, k: nat)
    requires Indexed(binmap, s) && i < 64 && k < |s.bins[i]| && c in s.blocks
    ensures Pow2(i) < Pow2(64)
    ensures Indexed(if |s.bins[i]| == 1 then And(binmap, Not(Pow2(i), 64)) else binmap, UnbinShape(s, c, i, k))
  {
    Pow2Monotone(i, 64);
    var s' := UnbinShape(s, c, i, k);
    if |s.bins[i]| == 1 {
      assert RemoveAt(s.bins[i], k) == [];
      IndexedClear(binmap, s, s', i);
    }
  }

  lemma SameIndex(binmap: nat, s: Shape, s': Shape)
    requires Indexed(binmap, s) && s'.bins == s.bins
    ensures Indexed(binmap, s')
  {}

  lemma BinCount(m: Memory, s: Shape)
    requires Inv(m, s)
    ensures |s.bins| == 64
  {}

  /** Masking the bin map from bin `i` up: zero means no list from `i` on has a chunk. */
  lemma MaskMeaning(binmap: nat, s: Shape, i: nat)
    requires Indexed(binmap, s) && i < 64
    ensures var mask := And(binmap, NegPow2(i, 64));
            mask != 0 ==> i <= FirstSet(mask) < 64 && s.bins[FirstSet(mask)] != []
                          && forall j :: i <= j < FirstSet(mask) ==> s.bins[j] == []
    ensures And(binmap, NegPow2(i, 64)) == 0 ==> forall j :: i <= j < 64 ==> s.bins[j] == []
  {
    var mask := And(binmap, NegPow2(i, 64));
    forall j: nat | j < 64 ensures Bit(mask, j) <==> i <= j && s.bins[j] != [] {
      BitAnd(binmap, NegPow2(i, 64), j);
      BitNegPow2(i, 64, j);
    }
    if mask != 0 {
      var f := FirstSet(mask);
      if f >= 64 { HighBitsClear(mask, 64, f); }
    } else {
      forall j: nat | j < 64 ensures !Bit(mask, j) { BitZero(j); }
    }
  }

  /** Only sizes above the mmap threshold are in the last bin. */
  lemma LastBin(n: nat)
    requires SIZE_ALIGN <= n < WORD && BinIndex(n) == 63
    ensures n > MMAP_THRESHOLD
  {
    ClassIsBinIndex(n);
  }

  // ----- live allocations

  lemma LiveUnbin(s: Shape, c: int, i: int, k: nat)
    requires c in s.blocks && 0 <= i < |s.bins| && k < |s.bins[i]|
    ensures Live(UnbinShape(s, c, i, k)) == Live(s)[c := s.blocks[c].size]
  {}

  lemma LiveJoin(s: Shape, lo: int, hi: int)
    requires lo in s.blocks && lo < hi
    ensures Live(JoinShape(s, lo, hi)) == (map c | c in Live(s) && !(lo < c < hi) :: Live(s)[c])[lo := hi - lo]
  {}

  lemma LiveSplit(s: Shape, c: int, n: int)
    requires c in s.blocks
    ensures Live(SplitShape(s, c, n, false)) == Live(s)[c := n][c + n := s.blocks[c].size - n]
  {}

  lemma LivePretrim(s: Shape, c: int, n: int, j: int)
    requires c in s.blocks && 0 <= j < |s.bins| && s.bins[j] != [] && c + n !in s.blocks && n != 0
    ensures Live(PretrimShape(s, c, n, j)) == Live(s)[c := n]
  {}

  lemma LiveInsert(s: Shape, c: int, i: int)
    requires c in s.blocks && 0 <= i < |s.bins|
    ensures Live(InsertShape(s, c, i)) == Live(s) - {c}
  {}

  lemma LiveExtend(s: Shape, w: int, n: int, inPlace: bool)
    requires w !in s.blocks
    ensures Live(ExtendShape(s, w, n, inPlace)) == Live(s)[w := n]
  {}

  // ----- payload frames of the composed steps

  /** Words reachable from a free list: static memory or a free chunk. */
  ghost predicate ListWord(s: Shape, a: int) {
    a < STATIC_TOP || (a in s.blocks && s.blocks[a].free)
  }

  lemma NeighbourWords(m: Memory, s: Shape, i: int, k: nat)
    requires Inv(m, s) && 0 <= i < 64 && k < |s.bins[i]|
    ensures var c := s.bins[i][k];
            && c in m && m[c].prev in m && m[c].next in m && OfClass(s, c, i) && ListWord(s, m[c].prev) && ListWord(s, m[c].next)
  {
    hide BinIndex;
    var h, l := Sentinel(i), s.bins[i];
    ListFacts(m, s, i);
    assert LinkedBin(m, h, l) && l[k] in l;
    Neighbours(m, h, l, k);
  }

  lemma UnbinTouches(m: Memory, s: Shape, c: int)
    requires c in m && m[c].prev in m && m[c].next in m && ListWord(s, m[c].prev) && ListWord(s, m[c].next)
    requires c in s.blocks && var x := c + s.blocks[c].size; x in m && (x in s.blocks || x in s.ends)
    requires forall d {:trigger s.blocks[d]} :: d in s.blocks ==> STATIC_TOP < d
    ensures TouchesHeadersOnly(m, FlagMem(UnlinkMem(m, c), c, Block(s.blocks[c].size, false)), s)
  {}

  lemma InHeap(m: Memory, s: Shape)
    requires Inv(m, s)
    ensures forall d {:trigger s.blocks[d]} :: d in s.blocks ==> STATIC_TOP < d
  {}

  lemma UnbinKeeps(m: Memory, s: Shape, i: int, k: nat)
    requires Inv(m, s) && 0 <= i < 64 && k < |s.bins[i]|
    ensures var c := s.bins[i][k];
            && c in s.blocks && c in m && m[c].prev in m && m[c].next in m && c + s.blocks[c].size in m
            && KeepsPayloads(m, FlagMem(UnlinkMem(m, c), c, Block(s.blocks[c].size, false)), Live(s))
  {
    hide BinIndex, OwnTags, PredTags, EdgeTags, Coalesced, Linked, NoGap, NoOverlap, Sized, Mapped;
    var c := s.bins[i][k];
    NeighbourWords(m, s, i, k);
    BlockFacts(m, s, c);
    InHeap(m, s);
    UnbinTouches(m, s, c);
    HeadersOnly(m, FlagMem(UnlinkMem(m, c), c, Block(s.blocks[c].size, false)), s);
  }

  lemma JoinKeeps(m: Memory, s: Shape, lo: int, hi: int)
    requires Inv(m, s) && lo in s.blocks && (hi in s.blocks || hi in s.ends) && lo in m && hi in m
    ensures KeepsPayloads(m, JoinMem(m, lo, hi), Live(s))
  {
    hide BinIndex, OwnTags, PredTags, EdgeTags, Coalesced, Binned, Linked, NoGap;
    assert TouchesHeadersOnly(m, JoinMem(m, lo, hi), s);
    HeadersOnly(m, JoinMem(m, lo, hi), s);
  }

  lemma SplitTouches(m: Memory, s: Shape, c: int, n: int, free: bool)
    requires Splittable(s, c, n) && Mapped(m, s) && c in m && c + n in m
    requires var x := c + s.blocks[c].size; x in m && (x in s.blocks || x in s.ends)
    ensures TouchesHeadersOnly(m, SplitMem(m, c, n, Block(s.blocks[c].size - n, free)), SplitShape(s, c, n, free))
    ensures Mapped(m, SplitShape(s, c, n, free))
  {}

  lemma SplitKeeps(m: Memory, s: Shape, c: int, n: int)
    requires Inv(m, s) && Splittable(s, c, n) && !s.blocks[c].free && c in m && c + n in m && c + s.blocks[c].size in m
    ensures KeepsPayloads(m, SplitMem(m, c, n, Block(s.blocks[c].size - n, false)), Live(SplitShape(s, c, n, false)))
  {
    hide BinIndex, OwnTags, PredTags, EdgeTags, Coalesced, Binned, Linked, NoGap, NoOverlap, Sized, Mapped;
    BlockFacts(m, s, c);
    SplitLaid(m, s, c, n, false);
    SplitTouches(m, s, c, n, false);
    HeadersOnly(m, SplitMem(m, c, n, Block(s.blocks[c].size - n, false)), SplitShape(s, c, n, false));
  }

  lemma PretrimTouches(m: Memory, s: Shape, c: int, n: int, j: int)
    requires Carvable(s, c, n, j) && Mapped(m, s) && c in m && c + n in m && m[c].prev in m && m[c].next in m
    requires ListWord(s, m[c].prev) && ListWord(s, m[c].next) && m[c].prev != c && m[c].next != c
    requires var x := c + s.blocks[c].size; x in m && (x in s.blocks || x in s.ends)
    requires forall d {:trigger s.blocks[d]} :: d in s.blocks ==> STATIC_TOP < d
    ensures TouchesHeadersOnly(m, SplitMem(RelinkMem(m, c, c + n), c, n, Block(s.blocks[c].size - n, true)), PretrimShape(s, c, n, j))
    ensures Mapped(m, PretrimShape(s, c, n, j))
  {
    hide BinIndex, SplitMem, RelinkMem, Mapped;
    PretrimWrites(m, c, n, s.blocks[c].size);
    PretrimMapped(m, s, c, n, j);
  }

  lemma PretrimMapped(m: Memory, s: Shape, c: int, n: int, j: int)
    requires Mapped(m, s) && Splittable(s, c, n) && 0 <= j < |s.bins| && s.bins[j] != []
    ensures Mapped(m, PretrimShape(s, c, n, j))
  {}

  lemma RelinkWrites(m: Memory, c: int, x: int)
    requires c in m && x in m && m[c].prev in m && m[c].next in m && m[c].prev != c && m[c].next != c && x != c
    ensures var m' := RelinkMem(m, c, x);
            && m'.Keys == m.Keys && m'[c] == m[c]
            && (forall a :: a in m && a != x && a != m[c].prev && a != m[c].next ==> m'[a] == m[a])
  {}

  lemma SplitWrites(m: Memory, c: int, n: int, rest: Block)
    requires c in m && c + n in m && c + n + rest.size in m
    ensures var m' := SplitMem(m, c, n, rest);
            && m'.Keys == m.Keys
            && (forall a :: a in m ==> m'[a].next == m[a].next && m'[a].prev == m[a].prev)
            && (forall a :: a in m && a != c && a != c + n && a != c + n + rest.size ==> m'[a] == m[a])
  {}

  lemma PretrimWrites(m: Memory, c: int, n: int, size: int)
    requires c in m && c + n in m && c + size in m && m[c].prev in m && m[c].next in m
    requires m[c].prev != c && m[c].next != c && n != 0
    ensures c in RelinkMem(m, c, c + n) && c + n in RelinkMem(m, c, c + n) && c + size in RelinkMem(m, c, c + n)
    ensures var m' := SplitMem(RelinkMem(m, c, c + n), c, n, Block(size - n, true));
            && m'.Keys == m.Keys && m'[c].next == m[c].next && m'[c].prev == m[c].prev
            && (forall a :: a in m && a != c && a != c + n && a != c + size && a != m[c].prev && a != m[c].next ==> m'[a] == m[a])
            && (forall a :: a in m && a != c && a != c + n && a != m[c].prev && a != m[c].next ==>
                  m'[a].next == m[a].next && m'[a].prev == m[a].prev)
  {
    hide SplitMem, RelinkMem;
    RelinkWrites(m, c, c + n);
    SplitWrites(RelinkMem(m, c, c + n), c, n, Block(size - n, true));
  }

  lemma NotOwnNeighbour(m: Memory, s: Shape, i: int, k: nat)
    requires Inv(m, s) && 0 <= i < 64 && k < |s.bins[i]|
    ensures var c := s.bins[i][k]; c in m && m[c].prev != c && m[c].next != c
  {
    hide BinIndex;
    var h, l := Sentinel(i), s.bins[i];
    var r := [h] + l + [h];
    ListFacts(m, s, i);
    assert LinkedBin(m, h, l) && Distinct(l) && l[k] in l;
    RingDistinct(h, l, r);
    assert r[k + 1] == l[k] && r[k] == m[l[k]].prev && r[k + 2] == m[l[k]].next;
  }

  lemma PretrimKeeps(m: Memory, s: Shape, c: int, n: int, j: int)
    requires Inv(m, s) && Carvable(s, c, n, j)
    ensures c in m && c + n in m && m[c].prev in m && m[c].next in m && c + s.blocks[c].size in m
    ensures KeepsPayloads(m, SplitMem(RelinkMem(m, c, c + n), c, n, Block(s.blocks[c].size - n, true)), Live(s))
  {
    hide BinIndex, OwnTags, PredTags, EdgeTags, Coalesced, Linked, NoGap, NoOverlap, Sized, Mapped;
    CarveFacts(m, s, c, n, j);
    NeighbourWords(m, s, j, 0);
    NotOwnNeighbour(m, s, j, 0);
    BlockFacts(m, s, c);
    InHeap(m, s);
    PretrimInv(m, s, c, n, j);
    PretrimTouches(m, s, c, n, j);
    HeadersOnly(m, SplitMem(RelinkMem(m, c, c + n), c, n, Block(s.blocks[c].size - n, true)), PretrimShape(s, c, n, j));
    LivePretrim(s, c, n, j);
    KeepsFewer(m, SplitMem(RelinkMem(m, c, c + n), c, n, Block(s.blocks[c].size - n, true)), Live(s), Live(s)[c := n]);
  }

  lemma InsertTouches(m: Memory, s: Shape, c: int, i: int)
    requires c in s.blocks && c in m && 0 <= i < |s.bins| && Mapped(m, s) && 0 <= i < 64
    requires Sentinel(i) in m && m[Sentinel(i)].prev in m && ListWord(s, m[Sentinel(i)].prev)
    requires var x := c + s.blocks[c].size; x in m && (x in s.blocks || x in s.ends)
    requires forall d {:trigger s.blocks[d]} :: d in s.blocks ==> STATIC_TOP < d
    ensures var m1 := FlagMem(m, c, Block(s.blocks[c].size, true));
            && Sentinel(i) in m1 && m1[Sentinel(i)].prev in m1
            && TouchesHeadersOnly(m, AppendMem(m1, c, Sentinel(i)), InsertShape(s, c, i))
    ensures Mapped(m, InsertShape(s, c, i))
  {}

  lemma TailWord(m: Memory, s: Shape, i: int)
    requires Inv(m, s) && 0 <= i < 64 && Sentinel(i) in m && m[Sentinel(i)].next != 0
    ensures m[Sentinel(i)].prev in m && ListWord(s, m[Sentinel(i)].prev)
  {
    hide BinIndex;
    ListFacts(m, s, i);
    assert LinkedBin(m, Sentinel(i), s.bins[i]);
    TailInMemory(m, Sentinel(i), s.bins[i]);
  }

  lemma InsertKeeps(m: Memory, s: Shape, c: int, i: int)
    requires Inv(m, s) && c in s.blocks && !s.blocks[c].free && 0 <= i < 64
    requires c in m && c + s.blocks[c].size in m && Sentinel(i) in m && m[Sentinel(i)].next != 0
    ensures var m1 := FlagMem(m, c, Block(s.blocks[c].size, true));
            && Sentinel(i) in m1 && m1[Sentinel(i)].prev in m1
            && KeepsPayloads(m, AppendMem(m1, c, Sentinel(i)), Live(s) - {c})
  {
    hide BinIndex, OwnTags, PredTags, EdgeTags, Coalesced, Linked, NoGap, NoOverlap, Sized, Mapped;
    TailWord(m, s, i);
    BlockFacts(m, s, c);
    InHeap(m, s);
    InsertTouches(m, s, c, i);
    LiveInsert(s, c, i);
    InsertFrame(s, c, i);
    HeadersOnly(m, AppendMem(FlagMem(m, c, Block(s.blocks[c].size, true)), c, Sentinel(i)), InsertShape(s, c, i));
  }

  lemma InsertFrame(s: Shape, c: int, i: int)
    requires Tiled(s) && c in s.blocks && 0 <= i < |s.bins|
    ensures Sized(InsertShape(s, c, i)) && NoOverlap(InsertShape(s, c, i))
  {
    FlagTiled(s, c, true);
    SizedFrame(FlagShape(s, c, true), InsertShape(s, c, i));
  }

  // ----- live chunks and the edges of segments determine everything else

  /** Above a free chunk is a live one or the end of the segment. */
  lemma TopOfFree(m: Memory, s: Shape, c: int)
    requires Inv(m, s) && c in s.blocks && s.blocks[c].free
    ensures c + s.blocks[c].size in Live(s) || c + s.blocks[c].size in s.ends
  {
    BlockFacts(m, s, c);
    assert Apart(s, c);
  }

  /** Inside a chunk there is neither another chunk nor an end. */
  lemma NothingInside(m: Memory, s: Shape, c: int, x: int)
    requires Inv(m, s) && c in s.blocks && c < x < c + s.blocks[c].size
    ensures x !in s.blocks && x !in s.ends
  {}

  /** Below a chunk that is not the first of its segment there is another. */
  lemma Below(m: Memory, s: Shape, c: int) returns (p: int)
    requires Inv(m, s) && c in s.blocks && c !in s.starts
    ensures p in s.blocks && p < c && p + s.blocks[p].size == c
  {
    assert HasPred(m, s, c);
    p := c - SizeOf(m[c].psize);
    assert GoodBlock(s, p);
  }

  lemma FreeSameSize(m: Memory, s: Shape, m': Memory, s': Shape, c: int)
    requires Inv(m, s) && Inv(m', s') && SameEdges(s, s') && Live(s) == Live(s')
    requires c in s.blocks && c in s'.blocks && s.blocks[c].free && s'.blocks[c].free
    ensures s.blocks[c].size == s'.blocks[c].size
  {
    hide Inv;
    TopOfFree(m, s, c);
    TopOfFree(m', s', c);
    BlockFacts(m, s, c);
    BlockFacts(m', s', c);
    var x, y := c + s.blocks[c].size, c + s'.blocks[c].size;
    if x < y { NothingInside(m', s', c, x); }
    if y < x { NothingInside(m, s, c, y); }
  }

  lemma {:induction false} SameBlock(m: Memory, s: Shape, m': Memory, s': Shape, c: int)
    requires Inv(m, s) && Inv(m', s') && SameEdges(s, s') && Live(s) == Live(s') && c in s.blocks
    ensures c in s'.blocks && s'.blocks[c] == s.blocks[c]
    decreases c
  {
    hide Inv;
    BlockFacts(m, s, c);
    if c in s.starts {
      StartsAreBlocks(m', s', c);
    } else {
      var p := Below(m, s, c);
      BlockFacts(m, s, p);
      SameBlock(m, s, m', s', p);
      BlockFacts(m', s', p);
      AboveFacts(m, s, c);
    }
    if s.blocks[c].free && s'.blocks[c].free { FreeSameSize(m, s, m', s', c); } else { assert c in Live(s) || c in Live(s'); }
  }

  lemma StartsAreBlocks(m: Memory, s: Shape, c: int)
    requires Inv(m, s) && c in s.starts
    ensures c in s.blocks
  {}

  /** Two heaps with the same live chunks and the same segments have the same chunks: no memory can be lost between them. */
  lemma ChunksDetermined(m: Memory, s: Shape, m': Memory, s': Shape)
    requires Inv(m, s) && Inv(m', s') && SameEdges(s, s') && Live(s) == Live(s')
    ensures s.blocks == s'.blocks
  {
    hide Inv;
    forall c | c in s.blocks ensures c in s'.blocks && s'.blocks[c] == s.blocks[c] { SameBlock(m, s, m', s', c); }
    forall c | c in s'.blocks ensures c in s.blocks { SameBlock(m', s', m, s, c); }
  }
}
