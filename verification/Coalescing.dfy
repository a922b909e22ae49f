/**
 The bookkeeping of `free` while it absorbs free neighbours: the range of adjacent allocated
 chunks it has gathered so far, and what becomes of the live allocations once they are joined
 into one chunk and put on a free list.
 */
module Coalescing {
  import opened HeapShape
  import opened HeapSteps
  import opened HeapOps
  import opened HeapFacts

  /** A free chunk at `c` was taken out of its bin; every other chunk is as before. */
  ghost predicate Taken(s: Shape, s': Shape, c: int) {
    && c in s.blocks && s.blocks[c].free
    && s'.blocks == s.blocks[c := Block(s.blocks[c].size, false)]
    && s'.starts == s.starts && s'.ends == s.ends
  }

  ghost predicate NoFreeBelow(s: Shape, x: int) {
    forall d {:trigger s.blocks[d]} :: d in s.blocks && s.blocks[d].free ==> d + s.blocks[d].size != x
  }

  ghost predicate NoFreeAt(s: Shape, x: int) {
    x in s.blocks ==> !s.blocks[x].free
  }

  /** The size of the free chunk at x, or 0 if there is none. */
  ghost function FreeAt(s: Shape, x: int): int {
    if x in s.blocks && s.blocks[x].free then s.blocks[x].size else 0
  }

  /** n is the size of the free chunk just below x, or 0 if there is none. */
  ghost predicate FreeBelowIs(s: Shape, x: int, n: int) {
    if n == 0 then NoFreeBelow(s, x) else n > 0 && x - n in s.blocks && s.blocks[x - n] == Block(n, true)
  }

  lemma TakenFewer(s: Shape, s': Shape, c: int, x: int)
    requires Taken(s, s', c)
    ensures NoFreeBelow(s, x) ==> NoFreeBelow(s', x)
    ensures NoFreeAt(s, x) ==> NoFreeAt(s', x)
  {}

  /** The in-use bits on both sides of a range say exactly that nothing free adjoins it. */
  lemma Adjoining(m: Memory, s: Shape, lo: int, hi: int)
    requires Inv(m, s) && (lo in s.blocks || lo in s.ends) && (hi in s.blocks || hi in s.ends)
    ensures lo in m && (InUse(m[lo].psize) <==> NoFreeBelow(s, lo))
    ensures hi in m && (InUse(m[hi].csize) <==> NoFreeAt(s, hi))
  {
    hide Inv, InUse;
    BelowFacts(m, s, lo);
    AboveFacts(m, s, hi);
  }

  /** Chunks [lo, hi) are allocated and contiguous; only `c0` of them was live at the start. */
  ghost predicate Gathered(m0: Memory, s0: Shape, c0: int, m: Memory, s: Shape, lo: int, hi: int) {
    && Joinable(m, s, lo, hi) && lo <= c0 < hi && SameEdges(s0, s)
    && (forall d :: d in Live(s0) ==> d in Live(s) && Live(s)[d] == Live(s0)[d])
    && (forall d :: d in Live(s) ==> d in Live(s0) || lo <= d < hi)
    && (forall d :: d in Live(s0) && lo <= d < hi ==> d == c0)
    && KeepsPayloads(m0, m, Live(s0))
  }

  lemma SelfKeeps(m: Memory, s: Shape)
    requires Inv(m, s)
    ensures KeepsPayloads(m, m, Live(s))
  {
    hide Linked, Binned, Coalesced, PredTags, EdgeTags, NoGap, NoOverlap;
    forall c | c in Live(s) ensures SamePayload(m, m, c, Live(s)[c]) { assert TaggedAs(m, c, s.blocks[c]); }
  }

  /** One chunk on its own is a range that could be joined. */
  lemma OneJoinable(m: Memory, s: Shape, c: int)
    requires Tiled(s) && Mapped(m, s) && c in s.blocks && !s.blocks[c].free
    ensures Joinable(m, s, c, c + s.blocks[c].size)
  {
    assert HasSucc(s, c) && GoodBlock(s, c);
    forall x | c < x < c + s.blocks[c].size ensures x !in s.starts && x !in s.ends { InsideNotBlock(s, c, x); }
    forall d | d in s.blocks && c <= d < c + s.blocks[c].size ensures d == c {
      if c < d { InOrder(s, c, d); }
    }
  }

  lemma GatherStart(m: Memory, s: Shape, c: int)
    requires Inv(m, s) && c in Live(s)
    ensures c in s.blocks && Gathered(m, s, c, m, s, c, c + s.blocks[c].size)
  {
    hide Linked, Binned, Coalesced, Tagged, Mapped, Sized, NoGap;
    SelfKeeps(m, s);
    OneJoinable(m, s, c);
    BlockFacts(m, s, c);
    forall d | d in Live(s) && c <= d < c + s.blocks[c].size ensures d == c {
      if c < d { InOrder(s, c, d); }
    }
  }

  /** Two adjoining joinable ranges make one. */
  lemma JoinableUnion(m: Memory, s: Shape, lo: int, mid: int, hi: int)
    requires Joinable(m, s, lo, mid) && Joinable(m, s, mid, hi) && Disjoint(s)
    ensures Joinable(m, s, lo, hi)
  {}

  ghost predicate Disjoint(s: Shape) {
    forall c :: c in s.blocks ==> c !in s.ends
  }

  lemma EndsAreNotBlocks(s: Shape)
    requires Sized(s) && NoOverlap(s)
    ensures Disjoint(s)
  {
    forall c | c in s.blocks ensures c !in s.ends { assert GoodBlock(s, c); }
  }

  /** Taking another free chunk elsewhere leaves a gathered range joinable. */
  lemma JoinableTaken(m: Memory, s: Shape, m': Memory, s': Shape, c: int, lo: int, hi: int)
    requires Joinable(m, s, lo, hi) && Taken(s, s', c) && forall a :: a in m ==> a in m'
    ensures Joinable(m', s', lo, hi)
  {}

  lemma LiveTaken(s: Shape, s': Shape, c: int)
    requires Taken(s, s', c)
    ensures Live(s') == Live(s)[c := s.blocks[c].size] && c !in Live(s)
  {}

  lemma GatherMore(m0: Memory, s0: Shape, c0: int, m: Memory, s: Shape, lo: int, hi: int, m': Memory, s': Shape, c: int)
    requires Gathered(m0, s0, c0, m, s, lo, hi) && Taken(s, s', c) && Inv(m', s')
    requires KeepsPayloads(m, m', Live(s)) && forall a :: a in m ==> a in m'
    requires c + s.blocks[c].size == lo || c == hi
    ensures c == hi ==> Gathered(m0, s0, c0, m', s', lo, hi + s.blocks[c].size)
    ensures c != hi ==> Gathered(m0, s0, c0, m', s', c, hi)
  {
    hide Inv, KeepsPayloads, Joinable;
    BlockFacts(m', s', c);
    LiveTaken(s, s', c);
    KeepsTransitive2(m0, m, m', Live(s0), Live(s));
    JoinableTaken(m, s, m', s', c, lo, hi);
    GatherJoin(m', s', lo, hi, c);
    GatherOnly(m', s', Live(s0), c0, lo, hi, c);
  }

  /** The absorbed chunk brings no further live allocation into the range. */
  lemma GatherOnly(m: Memory, s: Shape, live: map<int, int>, c0: int, lo: int, hi: int, c: int)
    requires Inv(m, s) && c in s.blocks && c !in live && forall d :: d in live ==> d in s.blocks
    requires forall d :: d in live && lo <= d < hi ==> d == c0
    requires c + s.blocks[c].size == lo || c == hi
    ensures var lo', hi' := if c == hi then lo else c, if c == hi then hi + s.blocks[c].size else hi;
            forall d :: d in live && lo' <= d < hi' ==> d == c0
  {
    hide Inv;
    forall d | d in live && c < d ensures c + s.blocks[c].size <= d { InsideTaken(m, s, c, d); }
  }

  lemma InsideTaken(m: Memory, s: Shape, c: int, d: int)
    requires Inv(m, s) && c in s.blocks && d in s.blocks && c < d
    ensures c + s.blocks[c].size <= d
  {}

  lemma GatherJoin(m: Memory, s: Shape, lo: int, hi: int, c: int)
    requires Inv(m, s) && Joinable(m, s, lo, hi) && c in s.blocks && !s.blocks[c].free
    ensures c + s.blocks[c].size == lo ==> Joinable(m, s, c, hi)
    ensures c == hi ==> Joinable(m, s, lo, c + s.blocks[c].size)
  {
    hide Linked, Binned, Coalesced, Tagged, Mapped, NoGap;
    OneJoinable(m, s, c);
    EndsAreNotBlocks(s);
    hide Sized, NoOverlap, Joinable;
    if c + s.blocks[c].size == lo { JoinableUnion(m, s, c, lo, hi); }
    if c == hi { JoinableUnion(m, s, lo, c, c + s.blocks[c].size); }
  }

  /** Joining the gathered range and freeing the result removes exactly `c0` from the live allocations. */
  lemma GatherLive(m0: Memory, s0: Shape, c0: int, m: Memory, s: Shape, lo: int, hi: int)
    requires Gathered(m0, s0, c0, m, s, lo, hi)
    ensures lo in s.blocks && lo < hi
    ensures Live(JoinShape(s, lo, hi)) - {lo} == Live(s0) - {c0}
  {
    LiveJoin(s, lo, hi);
    assert forall d :: d in s.blocks && lo <= d < hi ==> d in Live(s);
  }

  lemma GatherInv(m0: Memory, s0: Shape, c0: int, m: Memory, s: Shape, lo: int, hi: int)
    requires Gathered(m0, s0, c0, m, s, lo, hi) && Inv(m, s)
    ensures lo in m && hi in m && lo in s.blocks && (hi in s.blocks || hi in s.ends)
    ensures Inv(JoinMem(m, lo, hi), JoinShape(s, lo, hi))
    ensures JoinMem(m, lo, hi).Keys == m.Keys
    ensures KeepsPayloads(m0, JoinMem(m, lo, hi), Live(s0))
    ensures lo < hi && var s' := JoinShape(s, lo, hi);
              lo in s'.blocks && s'.blocks[lo] == Block(hi - lo, false) && s'.bins == s.bins && SameEdges(s, s')
    ensures JoinMem(m, lo, hi)[lo].psize == m[lo].psize && JoinMem(m, lo, hi)[hi].csize == m[hi].csize
  {
    hide Inv, KeepsPayloads;
    JoinInv(m, s, lo, hi);
    JoinKeeps(m, s, lo, hi);
    KeepsTransitive2(m0, m, JoinMem(m, lo, hi), Live(s0), Live(s));
  }

  lemma KeepsTransitive2(m: Memory, m': Memory, m'': Memory, live: map<int, int>, live': map<int, int>)
    requires KeepsPayloads(m, m', live) && KeepsPayloads(m', m'', live')
    requires forall c :: c in live ==> c in live' && live'[c] == live[c]
    ensures KeepsPayloads(m, m'', live)
  {
    KeepsTransitive(m, m', m'', live, live');
  }
}
