/**
 Growing the heap: `expand_heap` turns fresh memory from the system into one allocated chunk,
 either by extending the last segment over its footer or by opening a new segment.
 */
module HeapGrow {
  import opened SizeClass
  import opened HeapShape
  import opened HeapSteps
  import opened HeapOps

  ghost function ExtendShape(s: Shape, w: int, n: int, inPlace: bool): Shape {
    s.(blocks := s.blocks[w := Block(n, false)],
       starts := if inPlace then s.starts else s.starts + {w},
       ends := s.ends - {w} + {w + n})
  }

  /** Room for a chunk of `n` bytes at `w` and a footer above it, in memory not mapped before. */
  ghost predicate Room(m: Memory, s: Shape, w: int, n: int, inPlace: bool) {
    && Granule(w) && STATIC_TOP < w && SIZE_ALIGN <= n && n % SIZE_ALIGN == 0 && w + n < LIMIT
    && (if inPlace then w in s.ends else w !in m)
    && (forall a :: a in m ==> a <= w || w + n < a)
  }

  /** What `expand_heap` leaves in memory. */
  ghost predicate Grown(m: Memory, w: int, n: int, inPlace: bool, m': Memory) {
    && (forall a :: a in m && a != w ==> a in m' && m'[a] == m[a])
    && w in m' && m'[w].csize == n + 1
    && m'[w].psize == (if inPlace && w in m then m[w].psize else 1)
    && w + n in m' && m'[w + n].psize == n + 1 && m'[w + n].csize == 1
    && (forall a {:trigger Granule(a)} :: w <= a < w + n && Granule(a) ==> a in m')
  }

  /** Existing chunks and footers lie entirely below or entirely above the new one. */
  lemma RoomApart(m: Memory, s: Shape, w: int, n: int, inPlace: bool)
    requires Sized(s) && NoOverlap(s) && OwnTags(m, s) && EdgeTags(m, s) && Mapped(m, s) && Room(m, s, w, n, inPlace)
    ensures forall c {:trigger s.blocks[c]} :: c in s.blocks ==>
              c + s.blocks[c].size < w || (inPlace && c + s.blocks[c].size == w) || w + n < c
    ensures forall e :: e in s.ends ==> e < w || (inPlace && e == w) || w + n < e
    ensures w !in s.blocks
  {
    AddAligned(w, n);
    forall c | c in s.blocks
      ensures c + s.blocks[c].size < w || (inPlace && c + s.blocks[c].size == w) || w + n < c
    {
      assert GoodBlock(s, c) && TaggedAs(m, c, s.blocks[c]);
      assert c <= w + n < c + s.blocks[c].size && Granule(w + n) ==> w + n in m;
    }
    assert w in s.blocks ==> GoodBlock(s, w);
  }

  lemma ExtendSized(s: Shape, w: int, n: int, inPlace: bool)
    requires Sized(s) && Granule(w) && STATIC_TOP < w && SIZE_ALIGN <= n && n % SIZE_ALIGN == 0 && w + n < LIMIT
    ensures Sized(ExtendShape(s, w, n, inPlace))
  {
    AddAligned(w, n);
    var s' := ExtendShape(s, w, n, inPlace);
    forall c | c in s'.blocks ensures GoodBlock(s', c) {
      if c != w { assert GoodBlock(s, c); }
    }
  }

  ghost predicate ApartFrom(s: Shape, w: int, n: int, inPlace: bool) {
    && n > 0 && w !in s.blocks
    && (inPlace ==> w in s.ends)
    && (forall c {:trigger s.blocks[c]} :: c in s.blocks ==>
          s.blocks[c].size > 0
          && (c + s.blocks[c].size < w || (inPlace && c + s.blocks[c].size == w) || w + n < c))
    && (forall e :: e in s.ends ==> e < w || (inPlace && e == w) || w + n < e)
  }

  lemma ExtendTiled(s: Shape, w: int, n: int, inPlace: bool)
    requires NoGap(s) && NoOverlap(s) && ApartFrom(s, w, n, inPlace)
    ensures NoGap(ExtendShape(s, w, n, inPlace)) && NoOverlap(ExtendShape(s, w, n, inPlace))
  {
    var s' := ExtendShape(s, w, n, inPlace);
    assert forall x :: x in s.starts ==> x in s.blocks && s.blocks[x].size > 0;
    forall c | c in s'.blocks ensures HasSucc(s', c) {
      if c != w { assert HasSucc(s, c); }
    }
  }

  lemma ExtendOwnTags(m: Memory, s: Shape, w: int, n: int, inPlace: bool, m': Memory)
    requires OwnTags(m, s) && ApartFrom(s, w, n, inPlace) && Grown(m, w, n, inPlace, m')
    requires inPlace ==> w in m
    requires forall a :: a in m ==> a <= w || w + n < a
    ensures OwnTags(m', ExtendShape(s, w, n, inPlace))
  {
    hide Granule;
    var s' := ExtendShape(s, w, n, inPlace);
    forall c | c in s'.blocks ensures TaggedAs(m', c, s'.blocks[c]) {
      if c != w { assert TaggedAs(m, c, s.blocks[c]); }
    }
  }

  lemma ExtendEdges(m: Memory, s: Shape, w: int, n: int, inPlace: bool, m': Memory)
    requires EdgeTags(m, s) && ApartFrom(s, w, n, inPlace) && Grown(m, w, n, inPlace, m') && s.starts <= s.blocks.Keys
    requires !inPlace ==> w !in m
    ensures EdgeTags(m', ExtendShape(s, w, n, inPlace))
  {
    hide Granule;
    assert forall x :: x in s.starts ==> x in s.blocks && s.blocks[x].size > 0;
  }

  lemma ExtendPredTags(m: Memory, s: Shape, w: int, n: int, inPlace: bool, m': Memory)
    requires PredTags(m, s) && ApartFrom(s, w, n, inPlace) && s.starts <= s.blocks.Keys
    requires Grown(m, w, n, inPlace, m') && n % SIZE_ALIGN == 0
    ensures PredTags(m', ExtendShape(s, w, n, inPlace))
  {
    EvenSize(n);
    hide Granule;
    var s' := ExtendShape(s, w, n, inPlace);
    forall x | (x in s'.blocks || x in s'.ends) && x !in s'.starts ensures HasPred(m', s', x) {
      if x != w + n { assert HasPred(m, s, x); }
    }
  }

  lemma EndMapped(m: Memory, s: Shape, w: int)
    requires EdgeTags(m, s) && w in s.ends
    ensures w in m
  {}

  lemma ExtendInv(m: Memory, s: Shape, w: int, n: int, inPlace: bool, m': Memory)
    requires Inv(m, s) && Room(m, s, w, n, inPlace) && Grown(m, w, n, inPlace, m')
    ensures Inv(m', ExtendShape(s, w, n, inPlace))
    ensures KeepsPayloads(m, m', Live(s)) && w !in s.blocks
  {
    RoomApart(m, s, w, n, inPlace);
    AllPositive(s);
    ExtendFrames(m, s, w, n, inPlace, m');
    hide BinIndex, OwnTags, PredTags, EdgeTags, Mapped, Coalesced, Binned, Linked, Sized, NoOverlap;
    ExtendSized(s, w, n, inPlace);
    ExtendTiled(s, w, n, inPlace);
    if inPlace { EndMapped(m, s, w); }
    ExtendOwnTags(m, s, w, n, inPlace, m');
    ExtendEdges(m, s, w, n, inPlace, m');
    ExtendPredTags(m, s, w, n, inPlace, m');
  }

  lemma ExtendFrames(m: Memory, s: Shape, w: int, n: int, inPlace: bool, m': Memory)
    requires Inv(m, s) && Room(m, s, w, n, inPlace) && Grown(m, w, n, inPlace, m') && ApartFrom(s, w, n, inPlace)
    ensures Mapped(m', ExtendShape(s, w, n, inPlace)) && Coalesced(ExtendShape(s, w, n, inPlace))
    ensures Binned(ExtendShape(s, w, n, inPlace)) && Linked(m', ExtendShape(s, w, n, inPlace))
    ensures KeepsPayloads(m, m', Live(s))
  {
    var s' := ExtendShape(s, w, n, inPlace);
    ExtendBins(s, w, n, inPlace);
    ExtendLinks(m, s, w, m');
    ExtendMapped(m, s, w, n, inPlace, m');
    hide BinIndex, OwnTags, PredTags, EdgeTags, Coalesced, Binned, Linked, NoGap;
    assert TouchesHeadersOnly(m, m', s);
    HeadersOnly(m, m', s);
  }

  lemma ExtendMapped(m: Memory, s: Shape, w: int, n: int, inPlace: bool, m': Memory)
    requires Mapped(m, s) && Grown(m, w, n, inPlace, m') && w !in s.blocks
    ensures Mapped(m', ExtendShape(s, w, n, inPlace))
  {}

  lemma ExtendBins(s: Shape, w: int, n: int, inPlace: bool)
    requires Coalesced(s) && Binned(s) && w !in s.blocks
    ensures Coalesced(ExtendShape(s, w, n, inPlace)) && Binned(ExtendShape(s, w, n, inPlace))
  {
    hide BinIndex;
    var s' := ExtendShape(s, w, n, inPlace);
    forall c ensures Apart(s', c) { assert Apart(s, c); }
    forall i, c | 0 <= i < 64 && c in s'.bins[i] ensures OfClass(s', c, i) { assert OfClass(s, c, i); }
  }

  lemma ExtendLinks(m: Memory, s: Shape, w: int, m': Memory)
    requires Inv(m, s) && w !in s.blocks && STATIC_TOP < w
    requires forall a :: a in m && a != w ==> a in m' && m'[a] == m[a]
    ensures Linked(m', s)
  {
    hide BinIndex, PredTags, EdgeTags, Mapped, Coalesced, Sized, NoGap, NoOverlap;
    forall i | 0 <= i < 64 ensures Sentinel(i) in m && Sentinel(i) < STATIC_TOP { SentinelBelow(m, s, i); }
    forall c | c in s.blocks ensures c in m { assert TaggedAs(m, c, s.blocks[c]); }
    LinkedFrame(m, m', s);
  }
}
