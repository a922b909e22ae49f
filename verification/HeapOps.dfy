/**
 The allocator's operations on free lists and segments, composed from the primitive steps:
 taking a chunk out of its bin, putting one in, carving a request out of a binned chunk,
 and growing the heap. Each keeps the whole heap invariant.
 */
module HeapOps {
  import opened Basics
  import opened SizeClass
  import opened HeapShape
  import opened HeapSteps

  // ----- facts about lists

  /** Sentinels live in static memory, listed chunks in the heap; lists of different bins are disjoint. */
  lemma ListFacts(m: Memory, s: Shape, i: int)
    requires Inv(m, s) && 0 <= i < 64
    ensures Sentinel(i) in m && Sentinel(i) < STATIC_TOP
    ensures forall c :: c in s.bins[i] ==> c in m && STATIC_TOP < c && OfClass(s, c, i)
  {
    hide BinIndex;
    SentinelBelow(m, s, i);
    forall c | c in s.bins[i] ensures c in m && STATIC_TOP < c && OfClass(s, c, i) {
      assert OfClass(s, c, i);
      assert GoodBlock(s, c) && TaggedAs(m, c, s.blocks[c]);
    }
  }

  /** The neighbours of a listed chunk are its list's sentinel or other listed chunks. */
  lemma Neighbours(m: Memory, h: int, l: seq<int>, k: nat)
    requires LinkedBin(m, h, l) && k < |l|
    ensures l[k] in m && m[l[k]].prev in m && m[l[k]].next in m
    ensures m[l[k]].prev == h || m[l[k]].prev in l
    ensures m[l[k]].next == h || m[l[k]].next in l
  {
    var r := [h] + l + [h];
    assert r[k + 1] == l[k];
    assert r[k] == m[l[k]].prev && r[k + 2] == m[l[k]].next;
    assert r[k] in m && r[k + 2] in m;
    assert (r[k] == h || r[k] in l) && (r[k + 2] == h || r[k + 2] in l);
  }

  /** Rewriting links inside bin `i` only: every other list is untouched. */
  lemma OneBinChanged(m: Memory, m': Memory, s: Shape, i: int, l': seq<int>)
    requires Inv(m, s) && 0 <= i < 64
    requires LinkedBin(m', Sentinel(i), l')
    requires forall a :: a in m ==> a in m'
    requires forall a :: a in m && a < STATIC_TOP && a != Sentinel(i) ==>
               m'[a].next == m[a].next && m'[a].prev == m[a].prev
    requires forall a :: a in m && a in s.blocks && s.blocks[a].free && !OfClass(s, a, i) ==>
               m'[a].next == m[a].next && m'[a].prev == m[a].prev
    ensures Linked(m', s.(bins := s.bins[i := l']))
  {
    hide BinIndex;
    forall j | 0 <= j < 64 ensures LinkedBin(m', Sentinel(j), s.bins[i := l'][j]) {
      if j != i {
        ListFacts(m, s, j);
        forall c | c in s.bins[j]
          ensures c in m' && c in m && m'[c].next == m[c].next && m'[c].prev == m[c].prev
        {
          assert OfClass(s, c, j);
        }
        LinkedBinFrame(m, m', Sentinel(j), s.bins[j]);
      }
    }
  }

  lemma StaticNotBlock(s: Shape, h: int)
    requires Sized(s) && h < STATIC_TOP
    ensures h !in s.blocks && h !in s.ends
  {
    assert h in s.blocks ==> GoodBlock(s, h);
  }

  // ----- the list surgeries write link words only

  lemma UnlinkSizes(m: Memory, c: int)
    requires c in m && m[c].prev in m && m[c].next in m
    ensures SizesKept(m, UnlinkMem(m, c)) && UnlinkMem(m, c).Keys == m.Keys
  {}

  lemma AppendSizes(m: Memory, c: int, h: int)
    requires c in m && h in m && m[h].prev in m
    ensures SizesKept(m, AppendMem(m, c, h)) && AppendMem(m, c, h).Keys == m.Keys
  {}

  lemma RelinkSizes(m: Memory, c: int, x: int)
    requires c in m && x in m && m[c].prev in m && m[c].next in m
    ensures SizesKept(m, RelinkMem(m, c, x)) && RelinkMem(m, c, x).Keys == m.Keys
  {}

  // ----- unbin: malloc.c takes a free chunk out of its bin and marks it allocated

  function UnlinkMem(m: Memory, c: int): Memory
    requires c in m && m[c].prev in m && m[c].next in m
  {
    SetPrev(SetNext(m, m[c].prev, m[c].next), m[c].next, m[c].prev)
  }

  ghost function UnbinShape(s: Shape, c: int, i: int, k: nat): Shape
    requires c in s.blocks && 0 <= i < |s.bins| && k < |s.bins[i]|
  {
    FlagShape(s, c, false).(bins := s.bins[i := RemoveAt(s.bins[i], k)])
  }

  lemma UnlinkLinked(m: Memory, s: Shape, i: int, k: nat)
    requires Inv(m, s) && 0 <= i < 64 && k < |s.bins[i]|
    ensures var c := s.bins[i][k];
            && c in m && m[c].prev in m && m[c].next in m
            && (m[c].prev == m[c].next <==> |s.bins[i]| == 1)
            && SizesKept(m, UnlinkMem(m, c))
            && Linked(UnlinkMem(m, c), s.(bins := s.bins[i := RemoveAt(s.bins[i], k)]))
  {
    hide BinIndex;
    var h, l := Sentinel(i), s.bins[i];
    var c := l[k];
    ListFacts(m, s, i);
    assert LinkedBin(m, h, l) && Distinct(l);
    Neighbours(m, h, l, k);
    var m1 := UnlinkMem(m, c);
    UnlinkList(m, h, l, k, m1);
    UnlinkSizes(m, c);
    OneBinChanged(m, UnlinkMem(m, c), s, i, RemoveAt(l, k));
  }

  lemma UnbinBinned(s: Shape, c: int, i: int, k: nat)
    requires Binned(s) && 0 <= i < 64 && k < |s.bins[i]| && s.bins[i][k] == c && c in s.blocks
    ensures Binned(UnbinShape(s, c, i, k))
  {
    var s' := UnbinShape(s, c, i, k);
    assert OfClass(s, c, i);
    RemoveAtElements(s.bins[i], k);
    forall j, d | 0 <= j < 64 && d in s'.bins[j] ensures OfClass(s', d, j) { assert OfClass(s, d, j); }
  }

  lemma FewerFree(s: Shape, s': Shape, c: int)
    requires Coalesced(s) && c in s.blocks && s'.blocks == s.blocks[c := Block(s.blocks[c].size, false)]
    ensures Coalesced(s')
  {
    forall d ensures Apart(s', d) { assert Apart(s, d); }
  }

  lemma UnbinInv(m: Memory, s: Shape, i: int, k: nat)
    requires Inv(m, s) && 0 <= i < 64 && k < |s.bins[i]|
    ensures var c := s.bins[i][k];
            && c in s.blocks && s.blocks[c].free && c in m && m[c].prev in m && m[c].next in m
            && (m[c].prev == m[c].next <==> |s.bins[i]| == 1)
            && c + s.blocks[c].size in m
            && Inv(FlagMem(UnlinkMem(m, c), c, Block(s.blocks[c].size, false)), UnbinShape(s, c, i, k))
  {
    var c := s.bins[i][k];
    assert OfClass(s, c, i);
    var n := s.blocks[c].size;
    UnlinkLinked(m, s, i, k);
    var s1 := s.(bins := s.bins[i := RemoveAt(s.bins[i], k)]);
    LaidFrame(m, UnlinkMem(m, c), s, s1);
    UnbinBinned(s, c, i, k);
    FewerFree(s, UnbinShape(s, c, i, k), c);
    Reflag(UnlinkMem(m, c), s1, c, false);
  }

  /** Once the lists are in their new state, flipping the flag of `c` restores the whole invariant. */
  lemma Reflag(m: Memory, s: Shape, c: int, free: bool)
    requires Laid(m, s) && |s.bins| == 64 && Linked(m, s) && c in s.blocks
    requires Binned(FlagShape(s, c, free)) && Coalesced(FlagShape(s, c, free))
    ensures c in m && c + s.blocks[c].size in m
    ensures Inv(FlagMem(m, c, Block(s.blocks[c].size, free)), FlagShape(s, c, free))
  {
    FlagLaid(m, s, c, free);
    LinkWordsKept(m, FlagMem(m, c, Block(s.blocks[c].size, free)), s, FlagShape(s, c, free));
  }

  /** Size-word writes keep the lists, whatever happens to the flags. */
  lemma LinkWordsKept(m: Memory, m': Memory, s: Shape, s': Shape)
    requires |s.bins| == 64 && Linked(m, s) && s'.bins == s.bins
    requires forall a :: a in m ==> a in m' && m'[a].next == m[a].next && m'[a].prev == m[a].prev
    ensures Linked(m', s')
  {
    forall i | 0 <= i < 64 ensures LinkedBin(m', Sentinel(i), s'.bins[i]) {
      var h, l := Sentinel(i), s.bins[i];
      assert LinkedBin(m, h, l);
      var r := [h] + l + [h];
      assert r[0] == h && forall k :: 0 <= k < |l| ==> r[k + 1] == l[k];
      LinkedBinFrame(m, m', h, l);
    }
  }

  // ----- first use of a bin

  function InitBinMem(m: Memory, i: int): Memory
    requires Sentinel(i) in m
  {
    if m[Sentinel(i)].next == 0 then SetPrev(SetNext(m, Sentinel(i), Sentinel(i)), Sentinel(i), Sentinel(i)) else m
  }

  lemma InitBinInv(m: Memory, s: Shape, i: int)
    requires Inv(m, s) && 0 <= i < 64
    ensures Sentinel(i) in m && Inv(InitBinMem(m, i), s) && InitBinMem(m, i)[Sentinel(i)].next != 0
    ensures KeepsPayloads(m, InitBinMem(m, i), Live(s))
    ensures forall a :: a in m && a > STATIC_TOP ==> a in InitBinMem(m, i) && InitBinMem(m, i)[a] == m[a]
  {
    hide BinIndex;
    ListFacts(m, s, i);
    var h, l := Sentinel(i), s.bins[i];
    var m' := InitBinMem(m, i);
    assert LinkedBin(m, h, l);
    if l != [] {
      assert ([h] + l + [h])[0] == h && ([h] + l + [h])[1] == l[0];
      assert l[0] in l;
    }
    if m[h].next == 0 {
      assert l == [];
      assert LinkedBin(m', h, []) by { assert [h] + [] + [h] == [h, h]; }
      OneBinChanged(m, m', s, i, []);
      assert s.(bins := s.bins[i := []]) == s by { assert s.bins[i := []] == s.bins; }
      LaidFrame(m, m', s, s);
      HeadersOnly(m, m', s);
    } else {
      HeadersOnly(m, m', s);
    }
  }

  // ----- payload frames

  /** Outside list links of free chunks, only header words of chunks and footers change. */
  ghost predicate TouchesHeadersOnly(m: Memory, m': Memory, s: Shape) {
    && (forall a :: a in m ==> a in m')
    && (forall a :: a in m && a > STATIC_TOP && a !in s.blocks && a !in s.ends ==> m'[a] == m[a])
    && (forall a :: a in m && a in s.blocks && !s.blocks[a].free ==>
          m'[a].next == m[a].next && m'[a].prev == m[a].prev)
  }

  /** No chunk or footer starts strictly inside a chunk. */
  lemma InsideNotBlock(s: Shape, c: int, a: int)
    requires NoOverlap(s) && c in s.blocks && c < a < c + s.blocks[c].size
    ensures a !in s.blocks && a !in s.ends
  {
    if a in s.blocks { InOrder(s, c, a); }
  }

  lemma InOrder(s: Shape, c: int, d: int)
    requires NoOverlap(s) && c in s.blocks && d in s.blocks && c < d
    ensures c + s.blocks[c].size <= d
  {}

  lemma HeadersOnly(m: Memory, m': Memory, s: Shape)
    requires Sized(s) && NoOverlap(s) && Mapped(m, s) && TouchesHeadersOnly(m, m', s)
    ensures KeepsPayloads(m, m', Live(s))
  {
    forall c | c in Live(s) ensures SamePayload(m, m', c, Live(s)[c]) {
      assert GoodBlock(s, c);
      forall a | c < a < c + s.blocks[c].size && Granule(a) ensures a in m && a in m' && m[a] == m'[a] {
        assert a in m;
        InsideNotBlock(s, c, a);
      }
    }
  }

  // ----- insert: free puts an allocated chunk with allocated neighbours on its bin

  function AppendMem(m: Memory, c: int, h: int): Memory
    requires c in m && h in m && m[h].prev in m
  {
    SetNext(SetPrev(SetPrev(SetNext(m, c, h), c, m[h].prev), h, c), m[h].prev, c)
  }

  ghost function InsertShape(s: Shape, c: int, i: int): Shape
    requires c in s.blocks && 0 <= i < |s.bins|
  {
    FlagShape(s, c, true).(bins := s.bins[i := s.bins[i] + [c]])
  }

  lemma InsertBinned(s: Shape, c: int, i: int)
    requires Binned(s) && c in s.blocks && !s.blocks[c].free
    requires 0 <= s.blocks[c].size < WORD && i == BinIndex(s.blocks[c].size) && 0 <= i < 64
    ensures Binned(InsertShape(s, c, i)) && c !in s.bins[i]
  {
    var s' := InsertShape(s, c, i);
    forall j | 0 <= j < 64 ensures c !in s.bins[j] { assert c in s.bins[j] ==> OfClass(s, c, j); }
    forall j, d | 0 <= j < 64 && d in s'.bins[j] ensures OfClass(s', d, j) {
      if d != c { assert OfClass(s, d, j); }
    }
  }

  lemma InsertCoalesced(m: Memory, s: Shape, c: int)
    requires Coalesced(s) && OwnTags(m, s) && Sized(s) && c in s.blocks && c in m && InUse(m[c].psize)
    requires c + s.blocks[c].size in m && InUse(m[c + s.blocks[c].size].csize)
    ensures Coalesced(FlagShape(s, c, true))
  {
    var s' := FlagShape(s, c, true);
    var x := c + s.blocks[c].size;
    if x in s.blocks {
      assert TaggedAs(m, x, s.blocks[x]) && GoodBlock(s, x);
      EvenSize(s.blocks[x].size);
    }
    forall d ensures Apart(s', d) {
      assert Apart(s, d);
      if d in s.blocks {
        assert TaggedAs(m, d, s.blocks[d]) && GoodBlock(s, d);
        EvenSize(s.blocks[d].size);
      }
    }
  }

  lemma TailInMemory(m: Memory, h: int, l: seq<int>)
    requires LinkedBin(m, h, l) && h in m && m[h].next != 0
    ensures m[h].prev in m && (m[h].prev == h || m[h].prev in l)
  {
    var r := [h] + l + [h];
    assert r[|l| + 1] == h && r[|l|] in m;
    assert m[h].prev == r[|l|];
    assert r[|l|] == h || r[|l|] in l;
  }

  lemma InsertLinked(m: Memory, m1: Memory, s: Shape, c: int, i: int)
    requires Inv(m, s) && 0 <= i < 64 && c in s.blocks && !s.blocks[c].free && c !in s.bins[i]
    requires forall a :: a in m ==> a in m1 && m1[a].next == m[a].next && m1[a].prev == m[a].prev
    requires Sentinel(i) in m && m[Sentinel(i)].next != 0
    ensures c in m1 && Sentinel(i) in m1 && m1[Sentinel(i)].prev in m1
    ensures SizesKept(m1, AppendMem(m1, c, Sentinel(i)))
    ensures Linked(AppendMem(m1, c, Sentinel(i)), s.(bins := s.bins[i := s.bins[i] + [c]]))
  {
    hide BinIndex;
    var h, l := Sentinel(i), s.bins[i];
    ListFacts(m, s, i);
    assert TaggedAs(m, c, s.blocks[c]) && GoodBlock(s, c);
    assert LinkedBin(m, h, l);
    LinkedBinFrame(m, m1, h, l);
    TailInMemory(m1, h, l);
    var m2 := AppendMem(m1, c, h);
    AppendList(m1, h, l, c, m2);
    AppendSizes(m1, c, h);
    OneBinChanged(m, m2, s, i, l + [c]);
  }

  lemma InsertInv(m: Memory, s: Shape, c: int, i: int)
    requires Inv(m, s) && c in s.blocks && !s.blocks[c].free
    requires 0 <= s.blocks[c].size < WORD && i == BinIndex(s.blocks[c].size) && 0 <= i < 64
    requires c in m && InUse(m[c].psize)
    requires c + s.blocks[c].size in m && InUse(m[c + s.blocks[c].size].csize)
    requires Sentinel(i) in m && m[Sentinel(i)].next != 0
    ensures var m1 := FlagMem(m, c, Block(s.blocks[c].size, true));
            && Sentinel(i) in m1 && m1[Sentinel(i)].prev in m1
            && Inv(AppendMem(m1, c, Sentinel(i)), InsertShape(s, c, i))
  {
    hide BinIndex;
    InsertBinned(s, c, i);
    InsertCoalesced(m, s, c);
    FlagLaid(m, s, c, true);
    var m1 := FlagMem(m, c, Block(s.blocks[c].size, true));
    InsertLinked(m, m1, s, c, i);
    LaidFrame(m1, AppendMem(m1, c, Sentinel(i)), FlagShape(s, c, true), InsertShape(s, c, i));
    SameCoalesced(FlagShape(s, c, true), InsertShape(s, c, i));
  }

  lemma SameCoalesced(s: Shape, s': Shape)
    requires Coalesced(s) && s'.blocks == s.blocks
    ensures Coalesced(s')
  {
    forall d ensures Apart(s', d) { assert Apart(s, d); }
  }

  // ----- split: an allocated chunk gives up its tail

  lemma SplitInv(m: Memory, s: Shape, c: int, n: int)
    requires Inv(m, s) && Splittable(s, c, n) && !s.blocks[c].free
    ensures c in m && c + n in m && c + s.blocks[c].size in m
    ensures Inv(SplitMem(m, c, n, Block(s.blocks[c].size - n, false)), SplitShape(s, c, n, false))
  {
    hide BinIndex;
    SplitLaid(m, s, c, n, false);
    var m', s' := SplitMem(m, c, n, Block(s.blocks[c].size - n, false)), SplitShape(s, c, n, false);
    LinkWordsKept(m, m', s, s');
    InsideNotBlock(s, c, c + n);
    SplitBinned(s, c, n);
    SplitCoalesced(s, c, n);
  }

  lemma SplitBinned(s: Shape, c: int, n: int)
    requires Binned(s) && c in s.blocks && !s.blocks[c].free && c + n !in s.blocks
    ensures Binned(SplitShape(s, c, n, false))
  {
    var s' := SplitShape(s, c, n, false);
    forall i, d | 0 <= i < 64 && d in s'.bins[i] ensures OfClass(s', d, i) { assert OfClass(s, d, i); }
  }

  lemma SplitCoalesced(s: Shape, c: int, n: int)
    requires Coalesced(s) && c in s.blocks && !s.blocks[c].free
    ensures Coalesced(SplitShape(s, c, n, false))
  {
    var s' := SplitShape(s, c, n, false);
    forall d ensures Apart(s', d) { assert Apart(s, d); }
  }

  // ----- pretrim: carve a request off the front of a binned chunk, leaving the rest in the same bin

  function RelinkMem(m: Memory, c: int, x: int): Memory
    requires c in m && x in m && m[c].prev in m && m[c].next in m
  {
    SetPrev(SetNext(SetNext(SetPrev(m, x, m[c].prev), x, m[c].next), m[c].prev, x), m[c].next, x)
  }

  ghost function PretrimShape(s: Shape, c: int, n: int, j: int): Shape
    requires c in s.blocks && 0 <= j < |s.bins| && s.bins[j] != []
  {
    SplitShape(s, c, n, true).(bins := s.bins[j := s.bins[j][0 := c + n]])
  }

  ghost predicate Carvable(s: Shape, c: int, n: int, j: int) {
    && 0 <= j < 64 && |s.bins| == 64 && s.bins[j] != [] && s.bins[j][0] == c
    && Splittable(s, c, n) && s.blocks[c].size - n < WORD && BinIndex(s.blocks[c].size - n) == j
  }

  lemma AllPositive(s: Shape)
    requires Sized(s)
    ensures forall d {:trigger s.blocks[d]} :: d in s.blocks ==> s.blocks[d].size > 0
  {}

  lemma CarveFacts(m: Memory, s: Shape, c: int, n: int, j: int)
    requires Inv(m, s) && Carvable(s, c, n, j)
    ensures OfClass(s, c, j) && c + n !in s.blocks && c + n !in s.ends && STATIC_TOP < c
    ensures c in m && c + n in m && c + s.blocks[c].size in m
    ensures c + n !in s.bins[j]
  {
    assert c in s.bins[j] && OfClass(s, c, j) && GoodBlock(s, c) && TaggedAs(m, c, s.blocks[c]);
    AddAligned(c, n);
    InsideNotBlock(s, c, c + n);
    assert c + n in s.bins[j] ==> OfClass(s, c + n, j);
  }

  lemma RelinkLinked(m: Memory, s: Shape, c: int, n: int, j: int)
    requires Inv(m, s) && Carvable(s, c, n, j)
    ensures c in m && c + n in m && m[c].prev in m && m[c].next in m
    ensures SizesKept(m, RelinkMem(m, c, c + n))
    ensures Linked(RelinkMem(m, c, c + n), s.(bins := s.bins[j := s.bins[j][0 := c + n]]))
  {
    hide BinIndex;
    var h, l := Sentinel(j), s.bins[j];
    ListFacts(m, s, j);
    CarveFacts(m, s, c, n, j);
    assert LinkedBin(m, h, l) && Distinct(l);
    Neighbours(m, h, l, 0);
    hide OwnTags, PredTags, EdgeTags, Mapped, Coalesced, Linked, Sized, NoGap, NoOverlap;
    var m1 := RelinkMem(m, c, c + n);
    ReplaceHead(m, h, l, c + n, m1);
    RelinkSizes(m, c, c + n);
    OneBinChanged(m, m1, s, j, l[0 := c + n]);
  }

  lemma PretrimBinned(s: Shape, c: int, n: int, j: int)
    requires Binned(s) && Carvable(s, c, n, j) && c + n !in s.blocks
    ensures Binned(PretrimShape(s, c, n, j))
  {
    hide BinIndex;
    var s' := PretrimShape(s, c, n, j);
    assert c in s.bins[j] && OfClass(s, c, j);
    forall i | 0 <= i < 64 ensures c + n !in s.bins[i] { assert c + n in s.bins[i] ==> OfClass(s, c + n, i); }
    forall i, d | 0 <= i < 64 && d in s'.bins[i] ensures OfClass(s', d, i) {
      if d != c + n {
        assert d in s.bins[i] && OfClass(s, d, i);
        assert d != c;
      }
    }
    forall d | d in s'.blocks && s'.blocks[d].free
      ensures 0 <= s'.blocks[d].size < WORD && 0 <= BinIndex(s'.blocks[d].size) < 64
      ensures d in s'.bins[BinIndex(s'.blocks[d].size)]
    {
      if d == c + n {
        assert s'.bins[j][0] == d;
      } else {
        var i := BinIndex(s.blocks[d].size);
        var k :| 0 <= k < |s.bins[i]| && s.bins[i][k] == d;
        assert s'.bins[i][k] == d;
      }
    }
  }

  lemma PretrimCoalesced(s: Shape, c: int, n: int, j: int)
    requires Coalesced(s) && NoOverlap(s) && Carvable(s, c, n, j) && s.blocks[c].free
    requires forall d {:trigger s.blocks[d]} :: d in s.blocks ==> s.blocks[d].size > 0
    ensures Coalesced(PretrimShape(s, c, n, j))
  {
    var s' := PretrimShape(s, c, n, j);
    assert Apart(s, c);
    forall d ensures Apart(s', d) {
      assert Apart(s, d);
      if d in s.blocks && d != c { assert d + s.blocks[d].size != c + n; }
    }
  }

  lemma PretrimInv(m: Memory, s: Shape, c: int, n: int, j: int)
    requires Inv(m, s) && Carvable(s, c, n, j)
    ensures c in m && c + n in m && m[c].prev in m && m[c].next in m && c + s.blocks[c].size in m
    ensures Inv(SplitMem(RelinkMem(m, c, c + n), c, n, Block(s.blocks[c].size - n, true)), PretrimShape(s, c, n, j))
  {
    hide BinIndex, OwnTags, PredTags, EdgeTags, Mapped, Coalesced, Binned, Linked, Sized, NoGap, NoOverlap;
    CarveFacts(m, s, c, n, j);
    AllPositive(s);
    PretrimCoalesced(s, c, n, j);
    PretrimBinned(s, c, n, j);
    RelinkLinked(m, s, c, n, j);
    var m1, s1 := RelinkMem(m, c, c + n), s.(bins := s.bins[j := s.bins[j][0 := c + n]]);
    LaidFrame(m, m1, s, s1);
    SplitRelinked(m1, s1, c, n);
  }

  lemma SplitRelinked(m: Memory, s: Shape, c: int, n: int)
    requires Laid(m, s) && Splittable(s, c, n) && |s.bins| == 64 && Linked(m, s)
    requires Binned(SplitShape(s, c, n, true)) && Coalesced(SplitShape(s, c, n, true))
    ensures c in m && c + n in m && c + s.blocks[c].size in m
    ensures Inv(SplitMem(m, c, n, Block(s.blocks[c].size - n, true)), SplitShape(s, c, n, true))
  {
    hide BinIndex;
    SplitLaid(m, s, c, n, true);
    LinkWordsKept(m, SplitMem(m, c, n, Block(s.blocks[c].size - n, true)), s, SplitShape(s, c, n, true));
  }

  // ----- writes inside one chunk: a client's stores, memcpy, or the kernel dropping free pages

  /** Only bytes of the chunk at `c` change, and not its size words; a free chunk also keeps its links. */
  ghost predicate WritesInside(m: Memory, m': Memory, s: Shape, c: int)
    requires c in s.blocks
  {
    && c in m
    && (forall a :: a in m ==> a in m' && (a < c || c + s.blocks[c].size <= a ==> m'[a] == m[a]))
    && m'[c].psize == m[c].psize && m'[c].csize == m[c].csize
    && (s.blocks[c].free ==> m'[c] == m[c])
  }

  lemma InsideOwnTags(m: Memory, s: Shape, c: int, m': Memory)
    requires NoOverlap(s) && OwnTags(m, s) && c in s.blocks && WritesInside(m, m', s, c)
    requires forall d {:trigger s.blocks[d]} :: d in s.blocks ==> s.blocks[d].size > 0
    ensures OwnTags(m', s)
    ensures forall d {:trigger s.blocks[d]} :: d in s.blocks && d != c ==> d in m && d in m' && m'[d] == m[d]
  {
    forall d | d in s.blocks
      ensures TaggedAs(m', d, s.blocks[d])
      ensures d != c ==> d in m && d in m' && m'[d] == m[d]
    {
      assert TaggedAs(m, d, s.blocks[d]);
      if d < c { assert d + s.blocks[d].size <= c; } else if c < d { assert c + s.blocks[c].size <= d; }
    }
  }

  lemma InsidePredTags(m: Memory, s: Shape, c: int, m': Memory)
    requires NoOverlap(s) && PredTags(m, s) && c in s.blocks && WritesInside(m, m', s, c)
    requires forall d {:trigger s.blocks[d]} :: d in s.blocks && d != c ==> d in m && d in m' && m'[d] == m[d]
    ensures PredTags(m', s)
  {
    forall x | (x in s.blocks || x in s.ends) && x !in s.starts ensures HasPred(m', s, x) {
      assert HasPred(m, s, x);
      if x in s.blocks { assert s.blocks[x] == s.blocks[x]; }
    }
  }

  lemma InsideTagged(m: Memory, s: Shape, c: int, m': Memory)
    requires Sized(s) && NoGap(s) && NoOverlap(s) && Tagged(m, s) && c in s.blocks && WritesInside(m, m', s, c)
    ensures Tagged(m', s)
    ensures forall d {:trigger s.blocks[d]} :: d in s.blocks && d != c ==> d in m && d in m' && m'[d] == m[d]
  {
    AllPositive(s);
    hide OwnTags, PredTags, Sized;
    InsideOwnTags(m, s, c, m');
    InsidePredTags(m, s, c, m');
    forall x | x in s.starts ensures x in m' && m'[x].psize == 1 { assert x in s.blocks && s.blocks[x].size > 0; }
  }

  lemma InsidePayloads(m: Memory, s: Shape, c: int, m': Memory)
    requires Sized(s) && NoOverlap(s) && Mapped(m, s) && OwnTags(m, s) && c in s.blocks && WritesInside(m, m', s, c)
    ensures KeepsPayloads(m, m', Live(s) - {c})
  {
    var others := Live(s) - {c};
    forall d | d in others ensures SamePayload(m, m', d, others[d]) {
      assert TaggedAs(m, d, s.blocks[d]);
      assert d < c ==> d + s.blocks[d].size <= c;
      assert c < d ==> c + s.blocks[c].size <= d;
    }
  }

  lemma InsideInv(m: Memory, s: Shape, c: int, m': Memory)
    requires Inv(m, s) && c in s.blocks && WritesInside(m, m', s, c)
    ensures Inv(m', s) && KeepsPayloads(m, m', Live(s) - {c})
  {
    InsidePayloads(m, s, c, m');
    InsideTagged(m, s, c, m');
    assert GoodBlock(s, c);
    hide BinIndex, Coalesced, Binned, OwnTags, PredTags, EdgeTags, KeepsPayloads;
    forall i | 0 <= i < 64 ensures Sentinel(i) in m && Sentinel(i) < STATIC_TOP { SentinelBelow(m, s, i); }
    LinkedFrame(m, m', s);
  }
}
