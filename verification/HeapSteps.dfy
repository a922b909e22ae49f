/**
 The primitive heap rewritings of malloc.c as functions on memory and on shape, each proved
 to keep the heap invariant and the payload of every allocation it does not own.
 */
module HeapSteps {
  import opened SizeClass
  import opened HeapShape

  // ----- alignment arithmetic, kept apart from the quantified invariant

  lemma AddAligned(c: int, n: int)
    requires Granule(c) && n % SIZE_ALIGN == 0
    ensures Granule(c + n)
  {}

  lemma DifferenceAligned(c: int, d: int)
    requires Granule(c) && Granule(d)
    ensures (d - c) % SIZE_ALIGN == 0 && (c < d ==> d - c >= SIZE_ALIGN)
  {}

  lemma SubAligned(n: int, k: int)
    requires n % SIZE_ALIGN == 0 && k % SIZE_ALIGN == 0
    ensures (n - k) % SIZE_ALIGN == 0 && (k < n ==> n - k >= SIZE_ALIGN)
  {}

  lemma EvenSize(n: int)
    requires n % SIZE_ALIGN == 0
    ensures SizeOf(n) == n && SizeOf(n + 1) == n && !InUse(n) && InUse(n + 1)
  {}

  // ----- frames

  ghost predicate LinksKept(m: Memory, m': Memory, s: Shape) {
    && (forall i :: 0 <= i < 64 ==> var h := Sentinel(i);
          h in m && h in m' && m[h].next == m'[h].next && m[h].prev == m'[h].prev)
    && (forall c :: c in s.blocks && s.blocks[c].free ==>
          c in m && c in m' && m[c].next == m'[c].next && m[c].prev == m'[c].prev)
  }

  lemma LinkedFrame(m: Memory, m': Memory, s: Shape)
    requires Binned(s) && Linked(m, s) && LinksKept(m, m', s)
    ensures Linked(m', s)
  {
    forall i | 0 <= i < 64 ensures LinkedBin(m', Sentinel(i), s.bins[i]) {
      forall c | c in s.bins[i] ensures c in m && c in m' && m[c].next == m'[c].next && m[c].prev == m'[c].prev {
        assert OfClass(s, c, i);
      }
      LinkedBinFrame(m, m', Sentinel(i), s.bins[i]);
    }
  }

  /** Writes to size words leave every list alone. */
  lemma LinksReadOnly(m: Memory, m': Memory, s: Shape)
    requires Inv(m, s)
    requires forall a :: a in m ==> a in m' && m'[a].next == m[a].next && m'[a].prev == m[a].prev
    ensures Linked(m', s)
  {
    forall i | 0 <= i < 64 ensures Sentinel(i) in m { SentinelBelow(m, s, i); }
    forall c | c in s.blocks ensures c in m { assert TaggedAs(m, c, s.blocks[c]); }
    LinkedFrame(m, m', s);
  }

  lemma SentinelBelow(m: Memory, s: Shape, i: int)
    requires Inv(m, s) && 0 <= i < 64
    ensures Sentinel(i) in m && Sentinel(i) < STATIC_TOP
  {
    assert LinkedBin(m, Sentinel(i), s.bins[i]);
    assert ([Sentinel(i)] + s.bins[i] + [Sentinel(i)])[0] == Sentinel(i);
  }

  // ----- join: several adjacent allocated chunks become one

  function JoinMem(m: Memory, lo: int, hi: int): Memory
    requires lo in m && hi in m
  {
    SetPsize(SetCsize(m, lo, hi - lo + 1), hi, hi - lo + 1)
  }

  ghost function JoinShape(s: Shape, lo: int, hi: int): Shape {
    s.(blocks := map c | c in s.blocks && !(lo < c < hi) :: if c == lo then Block(hi - lo, false) else s.blocks[c])
  }

  ghost predicate Joinable(m: Memory, s: Shape, lo: int, hi: int) {
    && lo in s.blocks && lo < hi && (hi in s.blocks || hi in s.ends) && hi !in s.starts
    && (forall d {:trigger s.blocks[d]} :: d in s.blocks && lo <= d < hi ==>
          !s.blocks[d].free && d + s.blocks[d].size <= hi)
    && (forall x :: lo < x < hi ==> x !in s.starts && x !in s.ends)
    && (forall a {:trigger Granule(a)} :: lo <= a < hi && Granule(a) ==> a in m)
  }

  lemma JoinTiled(s: Shape, lo: int, hi: int)
    requires Tiled(s)
    requires lo in s.blocks && lo < hi && (hi in s.blocks || hi in s.ends) && hi !in s.starts
    requires forall d {:trigger s.blocks[d]} :: d in s.blocks && lo <= d < hi ==> d + s.blocks[d].size <= hi
    requires forall x :: lo < x < hi ==> x !in s.starts && x !in s.ends
    ensures Tiled(JoinShape(s, lo, hi))
  {
    JoinSized(s, lo, hi);
    JoinNoGap(s, lo, hi);
  }

  lemma JoinSized(s: Shape, lo: int, hi: int)
    requires Sized(s) && lo in s.blocks && lo < hi && (hi in s.blocks || hi in s.ends)
    ensures Sized(JoinShape(s, lo, hi))
  {
    var s' := JoinShape(s, lo, hi);
    assert Granule(lo);
    if hi in s.blocks { assert s.blocks[hi].size >= SIZE_ALIGN; }
    DifferenceAligned(lo, hi);
    assert GoodBlock(s', lo);
  }

  lemma JoinNoGap(s: Shape, lo: int, hi: int)
    requires NoGap(s) && NoOverlap(s)
    requires lo in s.blocks && lo < hi && (hi in s.blocks || hi in s.ends) && hi !in s.starts
    requires forall d {:trigger s.blocks[d]} :: d in s.blocks ==> s.blocks[d].size > 0
    requires forall x :: lo < x < hi ==> x !in s.starts && x !in s.ends
    ensures NoGap(JoinShape(s, lo, hi))
  {
    var s' := JoinShape(s, lo, hi);
    forall c | c in s'.blocks ensures HasSucc(s', c) {
      assert HasSucc(s, c);
      if c < lo { assert c + s.blocks[c].size <= lo; }
    }
  }

  lemma JoinOwnTags(m: Memory, s: Shape, lo: int, hi: int)
    requires Sized(s) && NoOverlap(s) && OwnTags(m, s) && lo in s.blocks && lo < hi && hi in m
    requires forall d {:trigger s.blocks[d]} :: d in s.blocks && lo <= d < hi ==> d + s.blocks[d].size <= hi
    ensures lo in m && OwnTags(JoinMem(m, lo, hi), JoinShape(s, lo, hi))
  {
    assert TaggedAs(m, lo, s.blocks[lo]);
    var m', s' := JoinMem(m, lo, hi), JoinShape(s, lo, hi);
    forall c | c in s'.blocks ensures TaggedAs(m', c, s'.blocks[c]) {
      assert TaggedAs(m, c, s.blocks[c]);
      if c < lo { assert c + s.blocks[c].size <= lo; }
    }
  }

  lemma JoinPredTags(m: Memory, s: Shape, lo: int, hi: int)
    requires PredTags(m, s) && lo in s.blocks && lo < hi && lo in m && hi in m
    requires (hi - lo) % SIZE_ALIGN == 0
    requires forall d {:trigger s.blocks[d]} :: d in s.blocks ==> s.blocks[d].size > 0
    requires forall d {:trigger s.blocks[d]} :: d in s.blocks && lo <= d < hi ==> d + s.blocks[d].size <= hi
    requires forall x :: lo < x < hi ==> x !in s.starts && x !in s.ends
    ensures PredTags(JoinMem(m, lo, hi), JoinShape(s, lo, hi))
  {
    var m', s' := JoinMem(m, lo, hi), JoinShape(s, lo, hi);
    EvenSize(hi - lo);
    forall x | (x in s'.blocks || x in s'.ends) && x !in s'.starts
      ensures HasPred(m', s', x)
    {
      assert HasPred(m, s, x);
      if x != hi {
        var p := x - SizeOf(m[x].psize);
        assert s.blocks[p].size == x - p && p in s'.blocks;
      }
    }
  }

  lemma JoinCoalesced(s: Shape, lo: int, hi: int)
    requires Coalesced(s)
    ensures Coalesced(JoinShape(s, lo, hi))
  {
    var s' := JoinShape(s, lo, hi);
    forall c ensures Apart(s', c) { assert Apart(s, c); }
  }

  lemma JoinBinned(s: Shape, lo: int, hi: int)
    requires Binned(s)
    requires forall d {:trigger s.blocks[d]} :: d in s.blocks && lo <= d < hi ==> !s.blocks[d].free
    requires lo < hi
    ensures Binned(JoinShape(s, lo, hi))
  {
    var s' := JoinShape(s, lo, hi);
    forall i, c | 0 <= i < 64 && c in s'.bins[i] ensures OfClass(s', c, i) { assert OfClass(s, c, i); }
  }

  lemma JoinLinked(m: Memory, s: Shape, lo: int, hi: int)
    requires Inv(m, s) && lo in m && hi in m
    ensures Linked(JoinMem(m, lo, hi), JoinShape(s, lo, hi))
  {
    LinksReadOnly(m, JoinMem(m, lo, hi), s);
  }

  lemma JoinEdgesMapped(m: Memory, s: Shape, lo: int, hi: int)
    requires EdgeTags(m, s) && Mapped(m, s) && lo in s.blocks && lo in m && hi in m && lo < hi
    requires hi !in s.starts && lo !in s.ends
    requires forall a {:trigger Granule(a)} :: lo <= a < hi && Granule(a) ==> a in m
    ensures EdgeTags(JoinMem(m, lo, hi), JoinShape(s, lo, hi))
    ensures Mapped(JoinMem(m, lo, hi), JoinShape(s, lo, hi))
  {}

  lemma JoinInv(m: Memory, s: Shape, lo: int, hi: int)
    requires Inv(m, s) && Joinable(m, s, lo, hi)
    ensures lo in m && hi in m && Inv(JoinMem(m, lo, hi), JoinShape(s, lo, hi))
  {
    assert TaggedAs(m, lo, s.blocks[lo]);
    assert HasPred(m, s, hi);
    if hi in s.blocks { assert GoodBlock(s, hi); }
    DifferenceAligned(lo, hi);
    JoinTiled(s, lo, hi);
    JoinOwnTags(m, s, lo, hi);
    JoinPredTags(m, s, lo, hi);
    JoinEdgesMapped(m, s, lo, hi);
    JoinCoalesced(s, lo, hi);
    JoinBinned(s, lo, hi);
    JoinLinked(m, s, lo, hi);
  }

  // ----- writes to link words only, and writes to size words only

  ghost predicate SizesKept(m: Memory, m': Memory) {
    forall a :: a in m ==> a in m' && m'[a].psize == m[a].psize && m'[a].csize == m[a].csize
  }

  /** Nothing but the bins differs. */
  ghost predicate SameChunks(s: Shape, s': Shape) {
    s'.blocks == s.blocks && s'.starts == s.starts && s'.ends == s.ends
  }

  /** The part of the invariant that does not concern the free lists. */
  ghost predicate Laid(m: Memory, s: Shape) {
    Tiled(s) && Tagged(m, s) && Mapped(m, s)
  }

  lemma LaidFrame(m: Memory, m': Memory, s: Shape, s': Shape)
    requires Laid(m, s) && SizesKept(m, m') && SameChunks(s, s')
    ensures Laid(m', s')
  {
    SizedFrame(s, s');
    NoGapFrame(s, s');
    forall c | c in s'.blocks ensures TaggedAs(m', c, s'.blocks[c]) { assert TaggedAs(m, c, s.blocks[c]); }
    forall x | (x in s'.blocks || x in s'.ends) && x !in s'.starts ensures HasPred(m', s', x) {
      assert HasPred(m, s, x);
    }
  }

  lemma SizedFrame(s: Shape, s': Shape)
    requires Sized(s) && SameChunks(s, s')
    ensures Sized(s')
  {
    forall c | c in s'.blocks ensures GoodBlock(s', c) { assert GoodBlock(s, c); }
  }

  lemma NoGapFrame(s: Shape, s': Shape)
    requires NoGap(s) && SameChunks(s, s')
    ensures NoGap(s')
  {
    forall c | c in s'.blocks ensures HasSucc(s', c) { assert HasSucc(s, c); }
  }

  // ----- flag: one chunk changes between free and allocated

  function FlagMem(m: Memory, c: int, b: Block): Memory
    requires c in m && c + b.size in m
  {
    SetPsize(SetCsize(m, c, Tag(b)), c + b.size, Tag(b))
  }

  ghost function FlagShape(s: Shape, c: int, free: bool): Shape
    requires c in s.blocks
  {
    s.(blocks := s.blocks[c := Block(s.blocks[c].size, free)])
  }

  lemma FlagTiled(s: Shape, c: int, free: bool)
    requires Tiled(s) && c in s.blocks
    ensures Tiled(FlagShape(s, c, free))
  {
    var s' := FlagShape(s, c, free);
    forall d | d in s'.blocks ensures GoodBlock(s', d) && HasSucc(s', d) {
      assert GoodBlock(s, d) && HasSucc(s, d);
    }
  }

  lemma FlagOwnTags(m: Memory, s: Shape, c: int, free: bool)
    requires NoOverlap(s) && OwnTags(m, s) && c in s.blocks
    requires forall d {:trigger s.blocks[d]} :: d in s.blocks ==> s.blocks[d].size > 0
    ensures c in m && c + s.blocks[c].size in m
    ensures OwnTags(FlagMem(m, c, Block(s.blocks[c].size, free)), FlagShape(s, c, free))
  {
    var n := s.blocks[c].size;
    assert TaggedAs(m, c, s.blocks[c]);
    var m', s' := FlagMem(m, c, Block(n, free)), FlagShape(s, c, free);
    forall d | d in s'.blocks ensures TaggedAs(m', d, s'.blocks[d]) {
      assert TaggedAs(m, d, s.blocks[d]);
      if d < c { assert d + s.blocks[d].size <= c; } else if c < d { assert c + n <= d; }
    }
  }

  lemma FlagPredTags(m: Memory, s: Shape, c: int, free: bool)
    requires PredTags(m, s) && c in s.blocks && c in m && c + s.blocks[c].size in m
    requires s.blocks[c].size % SIZE_ALIGN == 0
    ensures PredTags(FlagMem(m, c, Block(s.blocks[c].size, free)), FlagShape(s, c, free))
  {
    var n := s.blocks[c].size;
    EvenSize(n);
    var m', s' := FlagMem(m, c, Block(n, free)), FlagShape(s, c, free);
    forall x | (x in s'.blocks || x in s'.ends) && x !in s'.starts ensures HasPred(m', s', x) {
      assert HasPred(m, s, x);
    }
  }

  lemma FlagEdges(m: Memory, s: Shape, c: int, free: bool)
    requires EdgeTags(m, s) && NoGap(s) && NoOverlap(s) && c in s.blocks && s.blocks[c].size > 0
    requires c in m && c + s.blocks[c].size in m
    ensures EdgeTags(FlagMem(m, c, Block(s.blocks[c].size, free)), FlagShape(s, c, free))
  {
    assert HasSucc(s, c);
  }

  lemma FlagLaid(m: Memory, s: Shape, c: int, free: bool)
    requires Laid(m, s) && c in s.blocks
    ensures c in m && c + s.blocks[c].size in m
    ensures Laid(FlagMem(m, c, Block(s.blocks[c].size, free)), FlagShape(s, c, free))
  {
    FlagTiled(s, c, free);
    assert GoodBlock(s, c);
    FlagOwnTags(m, s, c, free);
    FlagPredTags(m, s, c, free);
    FlagEdges(m, s, c, free);
  }

  // ----- split: the chunk at `c` keeps its first `n` bytes, the rest becomes a chunk of its own

  function SplitMem(m: Memory, c: int, n: int, rest: Block): Memory
    requires c in m && c + n in m && c + n + rest.size in m
  {
    SetCsize(
      SetPsize(SetCsize(SetPsize(m, c + n, n + 1), c + n, Tag(rest)), c + n + rest.size, Tag(rest)),
      c, n + 1)
  }

  ghost function SplitShape(s: Shape, c: int, n: int, free: bool): Shape
    requires c in s.blocks
  {
    s.(blocks := s.blocks[c := Block(n, false)][c + n := Block(s.blocks[c].size - n, free)])
  }

  ghost predicate Splittable(s: Shape, c: int, n: int) {
    c in s.blocks && SIZE_ALIGN <= n < s.blocks[c].size && n % SIZE_ALIGN == 0
  }

  lemma SplitSized(s: Shape, c: int, n: int, free: bool)
    requires Sized(s) && Splittable(s, c, n)
    ensures Sized(SplitShape(s, c, n, free))
  {
    var s' := SplitShape(s, c, n, free);
    assert GoodBlock(s, c);
    AddAligned(c, n);
    SubAligned(s.blocks[c].size, n);
    assert GoodBlock(s', c) && GoodBlock(s', c + n);
    forall d | d in s'.blocks ensures GoodBlock(s', d) {
      if d != c && d != c + n { assert GoodBlock(s, d); }
    }
  }

  lemma SplitNoGap(s: Shape, c: int, n: int, free: bool)
    requires NoGap(s) && NoOverlap(s) && Splittable(s, c, n)
    ensures NoGap(SplitShape(s, c, n, free))
  {
    var s' := SplitShape(s, c, n, free);
    assert HasSucc(s, c);
    forall d | d in s'.blocks ensures HasSucc(s', d) {
      if d != c && d != c + n { assert HasSucc(s, d); }
    }
  }

  lemma SplitNoOverlap(s: Shape, c: int, n: int, free: bool)
    requires NoOverlap(s) && Splittable(s, c, n)
    requires forall d {:trigger s.blocks[d]} :: d in s.blocks ==> s.blocks[d].size > 0
    ensures NoOverlap(SplitShape(s, c, n, free))
  {
    var t := SplitShape(s, c, n, free);
    forall a, b | a in t.blocks && b in t.blocks && a < b ensures a + t.blocks[a].size <= b {
      var a', b' := if a == c + n then c else a, if b == c + n then c else b;
      assert a' in s.blocks && b' in s.blocks;
      assert a' < b' ==> a' + s.blocks[a'].size <= b';
    }
    forall a, e | a in t.blocks && e in t.ends ensures e < a || a + t.blocks[a].size <= e {
      var a' := if a == c + n then c else a;
      assert e < a' || a' + s.blocks[a'].size <= e;
    }
  }

  lemma SplitOwnTags(m: Memory, s: Shape, c: int, n: int, free: bool)
    requires NoOverlap(s) && OwnTags(m, s) && Splittable(s, c, n) && c + n in m
    requires forall d {:trigger s.blocks[d]} :: d in s.blocks ==> s.blocks[d].size > 0
    ensures c in m && c + s.blocks[c].size in m
    ensures OwnTags(SplitMem(m, c, n, Block(s.blocks[c].size - n, free)), SplitShape(s, c, n, free))
  {
    assert TaggedAs(m, c, s.blocks[c]);
    var m', s' := SplitMem(m, c, n, Block(s.blocks[c].size - n, free)), SplitShape(s, c, n, free);
    assert TaggedAs(m', c, s'.blocks[c]) && TaggedAs(m', c + n, s'.blocks[c + n]);
    forall d | d in s'.blocks ensures TaggedAs(m', d, s'.blocks[d]) {
      if d != c && d != c + n {
        assert TaggedAs(m, d, s.blocks[d]);
        if d < c { assert d + s.blocks[d].size <= c; } else { assert c + s.blocks[c].size <= d; }
      }
    }
  }

  lemma SplitPredTags(m: Memory, s: Shape, c: int, n: int, free: bool)
    requires NoOverlap(s) && PredTags(m, s) && Splittable(s, c, n)
    requires c in m && c + n in m && c + s.blocks[c].size in m && s.blocks[c].size % SIZE_ALIGN == 0
    requires forall d {:trigger s.blocks[d]} :: d in s.blocks ==> s.blocks[d].size > 0
    ensures PredTags(SplitMem(m, c, n, Block(s.blocks[c].size - n, free)), SplitShape(s, c, n, free))
  {
    var n1 := s.blocks[c].size;
    var m', s' := SplitMem(m, c, n, Block(n1 - n, free)), SplitShape(s, c, n, free);
    SubAligned(n1, n);
    EvenSize(n);
    EvenSize(n1 - n);
    forall x | (x in s'.blocks || x in s'.ends) && x !in s'.starts ensures HasPred(m', s', x) {
      if x != c + n {
        assert HasPred(m, s, x);
        if x != c + n1 {
          var p := x - SizeOf(m[x].psize);
          assert s.blocks[p].size == x - p && p != c && p != c + n;
        }
      }
    }
  }

  lemma SplitEdgesMapped(m: Memory, s: Shape, c: int, n: int, free: bool)
    requires EdgeTags(m, s) && Mapped(m, s) && NoGap(s) && NoOverlap(s) && Splittable(s, c, n)
    requires c in m && c + n in m && c + s.blocks[c].size in m
    ensures EdgeTags(SplitMem(m, c, n, Block(s.blocks[c].size - n, free)), SplitShape(s, c, n, free))
    ensures Mapped(SplitMem(m, c, n, Block(s.blocks[c].size - n, free)), SplitShape(s, c, n, free))
  {
    assert HasSucc(s, c);
    assert c + n !in s.blocks;
  }

  lemma SplitLaid(m: Memory, s: Shape, c: int, n: int, free: bool)
    requires Laid(m, s) && Splittable(s, c, n)
    ensures c in m && c + n in m && c + s.blocks[c].size in m
    ensures Laid(SplitMem(m, c, n, Block(s.blocks[c].size - n, free)), SplitShape(s, c, n, free))
  {
    assert GoodBlock(s, c) && TaggedAs(m, c, s.blocks[c]);
    AddAligned(c, n);
    SplitSized(s, c, n, free);
    SplitNoGap(s, c, n, free);
    SplitNoOverlap(s, c, n, free);
    SplitOwnTags(m, s, c, n, free);
    SplitPredTags(m, s, c, n, free);
    SplitEdgesMapped(m, s, c, n, free);
  }
}
