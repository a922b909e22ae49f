/**
 The boundary-tag heap of malloc.c: its memory layout, the shape the layout encodes, and
 what each primitive rewriting step (unbin, split, join, insert, extend) does to both.

 Memory is addressed in 32-byte granules. Every chunk header sits at an address that is
 16 modulo 32 and every chunk size is a multiple of 32, so a `struct chunk` is exactly one
 granule: two size words followed by two words that are list links in a free chunk and the
 first payload bytes in an allocated one.
 */
module HeapShape {
  import opened Basics
  import opened SizeClass
  import opened Bits

  datatype Chunk = Chunk(psize: int, csize: int, next: int, prev: int)
  type Memory = map<int, Chunk>

  // mal.bins is an array of 24-byte records (two lock words, head, tail) in static memory.
  const BINS_AT := 0x1000
  const STATIC_TOP := BINS_AT + 64 * 24
  const LIMIT := 0x8000_0000_0000_0000

  /** BIN_TO_CHUNK: the pseudo-chunk whose next and prev words are the bin's head and tail. */
  function Sentinel(i: int): int {
    BINS_AT + 24 * i + 8 - OVERHEAD
  }

  /** What a chunk is, independently of its encoding in memory. */
  datatype Block = Block(size: int, free: bool)

  /**
   blocks: every chunk, by address; starts: the first chunk of each segment;
   ends: the zero-sized footer chunk that closes each segment; bins: the 64 free lists.
   */
  datatype Shape = Shape(blocks: map<int, Block>, starts: set<int>, ends: set<int>, bins: seq<seq<int>>)

  // ----- size words

  function Tag(b: Block): int {
    if b.free then b.size else b.size + 1
  }

  predicate InUse(t: int) {
    t % 2 == 1
  }

  function SizeOf(t: int): int {
    t - t % 2
  }

  /** `t | C_INUSE` */
  function MarkInUse(t: int): int {
    if InUse(t) then t else t + 1
  }

  // ----- writes to one word of a chunk

  function SetPsize(m: Memory, a: int, v: int): Memory requires a in m { m[a := m[a].(psize := v)] }
  function SetCsize(m: Memory, a: int, v: int): Memory requires a in m { m[a := m[a].(csize := v)] }
  function SetNext(m: Memory, a: int, v: int): Memory requires a in m { m[a := m[a].(next := v)] }
  function SetPrev(m: Memory, a: int, v: int): Memory requires a in m { m[a := m[a].(prev := v)] }

  // ----- the invariant

  /** Addresses at which a chunk header may sit. */
  predicate Granule(a: int) {
    a % SIZE_ALIGN == OVERHEAD
  }

  ghost predicate GoodBlock(s: Shape, c: int)
    requires c in s.blocks
  {
    var b := s.blocks[c];
    && SIZE_ALIGN <= b.size && b.size % SIZE_ALIGN == 0
    && Granule(c) && STATIC_TOP < c && c + b.size < LIMIT
  }

  /** The address just above a chunk is the next chunk of its segment or the segment's footer. */
  ghost predicate HasSucc(s: Shape, c: int)
    requires c in s.blocks
  {
    var x := c + s.blocks[c].size;
    (x in s.blocks || x in s.ends) && x !in s.starts
  }

  ghost predicate Sized(s: Shape) {
    && (forall c {:trigger s.blocks[c]} :: c in s.blocks ==> GoodBlock(s, c))
    && (forall e :: e in s.ends ==> Granule(e) && STATIC_TOP < e < LIMIT)
  }

  ghost predicate NoGap(s: Shape) {
    && (forall c {:trigger HasSucc(s, c)} :: c in s.blocks ==> HasSucc(s, c))
    && s.starts <= s.blocks.Keys
  }

  ghost predicate NoOverlap(s: Shape) {
    && (forall c, d {:trigger s.blocks[c], s.blocks[d]} ::
          c in s.blocks && d in s.blocks && c < d ==> c + s.blocks[c].size <= d)
    && (forall c, e {:trigger s.blocks[c], e in s.ends} ::
          c in s.blocks && e in s.ends ==> e < c || c + s.blocks[c].size <= e)
  }

  /** Chunks and footers tile their segments. */
  ghost predicate Tiled(s: Shape) {
    Sized(s) && NoGap(s) && NoOverlap(s)
  }

  /** psize of `x` leads to the chunk just below it. */
  ghost predicate HasPred(m: Memory, s: Shape, x: int) {
    x in m && var n := SizeOf(m[x].psize); x - n in s.blocks && s.blocks[x - n].size == n
  }

  /** Forward tags: csize of a chunk and psize of its successor both encode the chunk. */
  ghost predicate OwnTags(m: Memory, s: Shape) {
    forall c {:trigger s.blocks[c]} :: c in s.blocks ==> TaggedAs(m, c, s.blocks[c])
  }

  ghost predicate TaggedAs(m: Memory, c: int, b: Block) {
    && c in m && m[c].csize == Tag(b)
    && c + b.size in m && m[c + b.size].psize == Tag(b)
  }

  /** Segment edges look allocated from both sides. */
  ghost predicate EdgeTags(m: Memory, s: Shape) {
    && (forall e :: e in s.ends ==> e in m && m[e].csize == 1)
    && (forall x :: x in s.starts ==> x in m && m[x].psize == 1)
  }

  /** Backward tags: psize leads from any chunk or footer to the chunk below it. */
  ghost predicate PredTags(m: Memory, s: Shape) {
    forall x {:trigger HasPred(m, s, x)} :: (x in s.blocks || x in s.ends) && x !in s.starts ==> HasPred(m, s, x)
  }

  ghost predicate Tagged(m: Memory, s: Shape) {
    OwnTags(m, s) && EdgeTags(m, s) && PredTags(m, s)
  }

  /** Every granule of every chunk is mapped memory. */
  ghost predicate Mapped(m: Memory, s: Shape) {
    forall c, a {:trigger s.blocks[c], Granule(a)} ::
      c in s.blocks && c <= a < c + s.blocks[c].size && Granule(a) ==> a in m
  }

  /** No two free chunks are adjacent. */
  ghost predicate Coalesced(s: Shape) {
    forall c {:trigger Apart(s, c)} :: Apart(s, c)
  }

  ghost predicate Apart(s: Shape, c: int) {
    c in s.blocks && s.blocks[c].free && c + s.blocks[c].size in s.blocks
    ==> !s.blocks[c + s.blocks[c].size].free
  }

  /** A chunk is on the list of bin i exactly when it is free and of class i, and once only. */
  ghost predicate Binned(s: Shape) {
    && |s.bins| == 64
    && (forall i :: 0 <= i < 64 ==> Distinct(s.bins[i]))
    && (forall i, c :: 0 <= i < 64 && c in s.bins[i] ==> OfClass(s, c, i))
    && (forall c :: c in s.blocks && s.blocks[c].free ==>
          0 <= s.blocks[c].size < WORD && 0 <= BinIndex(s.blocks[c].size) < 64
          && c in s.bins[BinIndex(s.blocks[c].size)])
  }

  ghost predicate OfClass(s: Shape, c: int, i: int) {
    && c in s.blocks && s.blocks[c].free
    && 0 <= s.blocks[c].size < WORD && BinIndex(s.blocks[c].size) == i
  }

  /** Consecutive elements of `r` point at each other. */
  ghost predicate Ring(m: Memory, r: seq<int>) {
    && (forall j :: 0 <= j < |r| ==> r[j] in m)
    && (forall j, k {:trigger r[j], r[k]} :: 0 <= j && k == j + 1 && k < |r| ==>
          m[r[j]].next == r[k] && m[r[k]].prev == r[j])
  }

  /** The circular doubly linked list through sentinel `h` holds exactly `l`, in order.
      A bin that was never used still has its zero initial value. */
  ghost predicate LinkedBin(m: Memory, h: int, l: seq<int>) {
    if l == [] && h in m && m[h].next == 0 then true else Ring(m, [h] + l + [h])
  }

  ghost predicate Linked(m: Memory, s: Shape)
    requires |s.bins| == 64
  {
    forall i :: 0 <= i < 64 ==> LinkedBin(m, Sentinel(i), s.bins[i])
  }

  ghost predicate Inv(m: Memory, s: Shape) {
    Tiled(s) && Tagged(m, s) && Mapped(m, s) && Coalesced(s) && Binned(s) && Linked(m, s)
  }

  /** Bit i of the bin map is set exactly when list i is non-empty. */
  ghost predicate Indexed(binmap: nat, s: Shape) {
    |s.bins| == 64 && binmap < Pow2(64) && forall i :: 0 <= i < 64 ==> (Bit(binmap, i) <==> s.bins[i] != [])
  }

  /** Every segment begins and ends where it did. */
  ghost predicate SameEdges(s: Shape, s': Shape) {
    s'.starts == s.starts && s'.ends == s.ends
  }

  // ----- what the client sees

  /** The allocated chunks and their sizes. */
  ghost function Live(s: Shape): map<int, int> {
    map c | c in s.blocks && !s.blocks[c].free :: s.blocks[c].size
  }

  /** The payload of the chunk at `c`: the last two words of its header granule and the granules up to `c + size`. */
  ghost predicate SamePayload(m: Memory, m': Memory, c: int, size: int) {
    && c in m && c in m' && m[c].next == m'[c].next && m[c].prev == m'[c].prev
    && forall a {:trigger Granule(a)} :: c < a < c + size && Granule(a) ==> a in m && a in m' && m[a] == m'[a]
  }

  ghost predicate KeepsPayloads(m: Memory, m': Memory, live: map<int, int>) {
    forall c :: c in live ==> SamePayload(m, m', c, live[c])
  }

  lemma KeepsTransitive(m: Memory, m': Memory, m'': Memory, live: map<int, int>, live': map<int, int>)
    requires KeepsPayloads(m, m', live) && KeepsPayloads(m', m'', live')
    requires forall c :: c in live ==> c in live' && live'[c] >= live[c]
    ensures KeepsPayloads(m, m'', live)
  {
    forall c | c in live ensures SamePayload(m, m'', c, live[c]) {
      assert SamePayload(m, m', c, live[c]) && SamePayload(m', m'', c, live'[c]);
    }
  }

  lemma KeepsFewer(m: Memory, m': Memory, live: map<int, int>, live': map<int, int>)
    requires KeepsPayloads(m, m', live')
    requires forall c :: c in live ==> c in live' && live'[c] >= live[c]
    ensures KeepsPayloads(m, m', live)
  {
    forall c | c in live ensures SamePayload(m, m', c, live[c]) { assert SamePayload(m, m', c, live'[c]); }
  }

  /** Live allocations never overlap, and each is aligned for any C type. */
  lemma LiveDisjoint(s: Shape, c: int, d: int)
    requires Tiled(s) && c in Live(s) && d in Live(s) && c != d
    ensures (c + OVERHEAD) % SIZE_ALIGN == 0
    ensures c + Live(s)[c] <= d || d + Live(s)[d] <= c
  {
    assert GoodBlock(s, c) && s.blocks[d].size == Live(s)[d];
    MemAligned(c);
  }

  lemma MemAligned(c: int)
    requires Granule(c)
    ensures (c + OVERHEAD) % SIZE_ALIGN == 0
  {}

  // ----- list surgery

  function RemoveAt(l: seq<int>, k: nat): seq<int>
    requires k < |l|
  {
    l[..k] + l[k + 1..]
  }

  lemma RemoveAtElements(l: seq<int>, k: nat)
    requires k < |l| && Distinct(l)
    ensures Distinct(RemoveAt(l, k))
    ensures forall x :: x in RemoveAt(l, k) <==> x in l && x != l[k]
  {
    var r := RemoveAt(l, k);
    forall x | x in l && x != l[k] ensures x in r {
      var j :| 0 <= j < |l| && l[j] == x;
      assert if j < k then r[j] == x else r[j - 1] == x;
    }
  }

  /** A list is untouched when none of its link words change. */
  lemma LinkedBinFrame(m: Memory, m': Memory, h: int, l: seq<int>)
    requires LinkedBin(m, h, l)
    requires h in m' && h in m && m'[h].next == m[h].next && m'[h].prev == m[h].prev
    requires forall x :: x in l ==> x in m' && x in m && m'[x].next == m[x].next && m'[x].prev == m[x].prev
    ensures LinkedBin(m', h, l)
  {
    var r := [h] + l + [h];
    forall j | 0 <= j < |r|
      ensures r[j] in m' && r[j] in m && m'[r[j]].next == m[r[j]].next && m'[r[j]].prev == m[r[j]].prev
    {
      assert r[j] == h || r[j] in l;
    }
  }

  /** In the ring of a list of distinct elements only the sentinel occurs twice. */
  lemma RingDistinct(h: int, l: seq<int>, r: seq<int>)
    requires Distinct(l) && h !in l && r == [h] + l + [h]
    ensures forall j, k :: 0 <= j < k < |r| && r[j] == r[k] ==> j == 0 && k == |r| - 1
  {
    assert forall j :: 0 < j < |r| - 1 ==> r[j] == l[j - 1];
  }

  /** The two pointer writes of `unbin` take one element out of its list. */
  lemma UnlinkList(m: Memory, h: int, l: seq<int>, k: nat, m': Memory)
    requires LinkedBin(m, h, l) && Distinct(l) && h !in l && k < |l|
    requires var c := l[k];
             && c in m && m[c].prev in m && m[c].next in m
             && m' == SetPrev(SetNext(m, m[c].prev, m[c].next), m[c].next, m[c].prev)
    ensures LinkedBin(m', h, RemoveAt(l, k))
    ensures m[l[k]].prev == m[l[k]].next <==> |l| == 1
  {
    var r, r' := [h] + l + [h], [h] + RemoveAt(l, k) + [h];
    RingDistinct(h, l, r);
    var i := k + 1;
    assert r[i] == l[k] && m[r[i - 1]].next == r[i] && m[r[i]].next == r[i + 1];
    assert forall j :: 0 <= j < i ==> r'[j] == r[j];
    assert forall j :: i <= j < |r'| ==> r'[j] == r[j + 1];
    forall j | 0 <= j < |r'| ensures r'[j] in m {
      assert (j < i ==> r'[j] == r[j]) && (i <= j ==> r'[j] == r[j + 1]);
      assert (j < i ==> r[j] in m) && (i <= j ==> r[j + 1] in m);
    }
    forall j | 0 <= j < |r'| - 1 ensures m'[r'[j]].next == r'[j + 1] && m'[r'[j + 1]].prev == r'[j] {
      if j < i - 1 { assert m[r[j]].next == r[j + 1]; }
      if j >= i { assert m[r[j + 1]].next == r[j + 2]; }
    }
  }

  /** Appending at the tail, as `free` does. */
  lemma AppendList(m: Memory, h: int, l: seq<int>, c: int, m': Memory)
    requires LinkedBin(m, h, l) && Distinct(l) && h !in l && c !in l && c != h && c in m
    requires h in m && m[h].next != 0 && m[h].prev in m
    requires var t := m[h].prev;
             m' == SetNext(SetPrev(SetPrev(SetNext(m, c, h), c, t), h, c), t, c)
    ensures LinkedBin(m', h, l + [c])
  {
    var r, r' := [h] + l + [h], [h] + (l + [c]) + [h];
    RingDistinct(h, l, r);
    assert r[|l| + 1] == h && r[|l|] == m[h].prev;
    assert forall j :: 0 <= j < |r'| ==> r'[j] == if j <= |l| then r[j] else if j == |l| + 1 then c else h;
    assert forall j :: 0 <= j < |r| ==> r[j] == h || r[j] in l;
  }

  /** Replacing the head element in place, as `pretrim` does. */
  lemma ReplaceHead(m: Memory, h: int, l: seq<int>, c: int, m': Memory)
    requires LinkedBin(m, h, l) && Distinct(l) && h !in l && l != [] && c !in l && c != h && c in m
    requires var o := l[0];
             && o in m && m[o].prev in m && m[o].next in m
             && m' == SetPrev(SetNext(SetNext(SetPrev(m, c, m[o].prev), c, m[o].next), m[o].prev, c), m[o].next, c)
    ensures LinkedBin(m', h, l[0 := c])
  {
    var r, r' := [h] + l + [h], [h] + l[0 := c] + [h];
    RingDistinct(h, l, r);
    assert r[0] == h && r[1] == l[0] && m[r[1]].next == r[2];
    assert forall j :: 0 <= j < |r'| ==> r'[j] == if j == 1 then c else r[j];
    assert forall j :: 0 <= j < |r| ==> r[j] == h || r[j] in l;
  }
}
