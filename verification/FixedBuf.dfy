/**
 Registered buffers. Registration cuts a buffer into one segment per page; importing part of it
 finds the first segment by shift and mask instead of walking the list. The iterator made this way
 covers exactly the bytes asked for.
 */
module FixedBuf {
  import opened Basics
  import opened Bits

  const Shift: nat := 12
  const Page: nat := 4096

  datatype BVec = BVec(page: nat, len: nat, offset: nat)

  /** A mapped buffer: where it lies in user memory, and its segments. */
  datatype Mapped = Mapped(ubuf: nat, ubufEnd: nat, bvec: seq<BVec>)

  /** A byte of memory: a page frame and a place in it. */
  datatype Loc = Loc(page: nat, offset: nat)

  /** Where the byte at a user address lies, when `pages` back the buffer from the page of `ubuf` on. */
  function Location(pages: seq<nat>, ubuf: nat, a: nat): Loc
    requires ubuf <= a && a / Page - ubuf / Page < |pages|
  {
    Loc(pages[a / Page - ubuf / Page], a % Page)
  }

  function Pages(ubuf: nat, len: nat): nat {
    (ubuf + len + Page - 1) / Page - ubuf / Page
  }

  // ----- registration

  /** The buffer's bytes from segment i on. */
  function Rest(ubuf: nat, len: nat, i: nat): int {
    if i == 0 then len else len - (Page - ubuf % Page) - (i - 1) * Page
  }

  function Segment(ubuf: nat, len: nat, pages: seq<nat>, i: nat): BVec
    requires i < |pages| && Rest(ubuf, len, i) >= 0
  {
    if i == 0 then BVec(pages[0], Min(len, Page - ubuf % Page), ubuf % Page)
    else BVec(pages[i], Min(Rest(ubuf, len, i), Page), 0)
  }

  ghost predicate Registered(imu: Mapped, ubuf: nat, len: nat, pages: seq<nat>) {
    && len > 0 && |pages| == Pages(ubuf, len) && |imu.bvec| == |pages|
    && imu.ubuf == ubuf && imu.ubufEnd == ubuf + len
    && forall i :: 0 <= i < |pages| ==> Rest(ubuf, len, i) > 0 && imu.bvec[i] == Segment(ubuf, len, pages, i)
  }

  /** Segments begin inside the buffer, and only the last one may end before its page does. */
  lemma RestFacts(ubuf: nat, len: nat, i: nat)
    requires len > 0 && i < Pages(ubuf, len)
    ensures Rest(ubuf, len, i) > 0
    ensures i > 0 ==> len > Page - ubuf % Page
    ensures i + 1 == Pages(ubuf, len) <==> Rest(ubuf, len, i) <= (if i == 0 then Page - ubuf % Page else Page)
  {}

  lemma PageMask(x: nat)
    ensures And(x, Page - 1) == x % Page
  {
    SmallPowers();
    AndLowMask(x, Shift);
  }

  /** The part of io_sqe_buffer_register that fills in the segments, once the pages are pinned. */
  method Register(ubuf: nat, len: nat, pages: seq<nat>) returns (imu: Mapped)
    requires len > 0 && |pages| == Pages(ubuf, len)
    ensures Registered(imu, ubuf, len, pages)
  {
    var bvec := new BVec[|pages|](_ => BVec(0, 0, 0));
    PageMask(ubuf);
    var off := And(ubuf, Page - 1);
    var size := len;
    var i := 0;
    while i < |pages|
      invariant i <= |pages|
      invariant off == if i == 0 then ubuf % Page else 0
      invariant i < |pages| ==> size == Rest(ubuf, len, i)
      invariant forall k :: 0 <= k < i ==> Rest(ubuf, len, k) > 0 && bvec[k] == Segment(ubuf, len, pages, k)
    {
      RestFacts(ubuf, len, i);
      var vecLen := Min(size, Page - off);
      bvec[i] := BVec(pages[i], vecLen, off);
      off := 0;
      size := size - vecLen;
      i := i + 1;
    }
    imu := Mapped(ubuf, ubuf + len, bvec[..]);
  }

  const EFault: int := -14
  const EOverflow: int := -75

  /** The buffer registered for a null address: no access fits in it. */
  const Dummy: Mapped := Mapped(U64 - 1, 0, [])

  /** io_buffer_validate and registration; `pages` are the frames that the kernel pins. */
  method RegisterIov(base: nat, len: nat, pages: seq<nat>) returns (ret: int, imu: Mapped)
    requires base < U64 && len < U64 && |pages| == Pages(base, len)
    ensures ret == if base == 0 then (if len == 0 then 0 else EFault) else if len == 0 || len > 0x4000_0000 then EFault
                   else if base + Page - 1 + len >= U64 then EOverflow else 0
    ensures ret == 0 && base == 0 ==> imu == Dummy
    ensures ret == 0 && base != 0 ==> Registered(imu, base, len, pages) && imu.ubufEnd < U64
  {
    imu := Dummy;
    if base == 0 {
      return if len != 0 then EFault else 0, imu;
    }
    if len == 0 || len > 0x4000_0000 {
      return EFault, imu;
    }
    if base + (len + (Page - 1)) >= U64 {
      return EOverflow, imu;
    }
    imu := Register(base, len, pages);
    ret := 0;
  }

  // ----- iterators

  datatype Pos = Pos(seg: nat, inner: nat)

  /** Plain walking: skip whole segments while they fit into pos. */
  function Find(b: seq<BVec>, pos: nat): (r: Pos)
    ensures r.seg <= |b|
  {
    if b == [] || pos < b[0].len then Pos(0, pos)
    else var r := Find(b[1..], pos - b[0].len); Pos(r.seg + 1, r.inner)
  }

  /** The i-th byte from a position in the segments is the i-th from user address a. */
  ghost predicate ByteIs(b: seq<BVec>, pos: nat, pages: seq<nat>, ubuf: nat, a: nat, i: nat) {
    var p := Find(b, pos + i);
    && p.seg < |b| && ubuf <= a + i && (a + i) / Page - ubuf / Page < |pages|
    && Loc(b[p.seg].page, b[p.seg].offset + p.inner) == Location(pages, ubuf, a + i)
  }

  ghost predicate CoversFrom(b: seq<BVec>, pos: nat, pages: seq<nat>, ubuf: nat, a: nat, len: nat) {
    forall i :: 0 <= i < len ==> ByteIs(b, pos, pages, ubuf, a, i)
  }

  class Iter {
    var bvec: seq<BVec>
    var count: nat
    var iovOffset: nat

    /** The iterator covers the bytes of [a, a + len) in the buffer, in order. */
    ghost predicate Covers(pages: seq<nat>, ubuf: nat, a: nat, len: nat)
      reads this
    {
      count == len && CoversFrom(bvec, iovOffset, pages, ubuf, a, len)
    }

    constructor (bvec: seq<BVec>, count: nat)
      ensures this.bvec == bvec && this.count == count && iovOffset == 0
    {
      this.bvec, this.count, iovOffset := bvec, count, 0;
    }

    /** Walks over the segments one by one. */
    method Advance(n: nat)
      requires n <= count
      modifies this
      ensures bvec == old(bvec)[Find(old(bvec), old(iovOffset) + n).seg..]
      ensures iovOffset == Find(old(bvec), old(iovOffset) + n).inner && count == old(count) - n
    {
      count := count - n;
      var size := n + iovOffset;
      var k := 0;
      while k < |bvec| && size >= bvec[k].len
        invariant k <= |bvec| && bvec == old(bvec) && count == old(count) - n && size >= 0
        invariant Find(bvec, n + old(iovOffset)).seg == k + Find(bvec[k..], size).seg
        invariant Find(bvec, n + old(iovOffset)).inner == Find(bvec[k..], size).inner
      {
        assert bvec[k..][1..] == bvec[k + 1..];
        size := size - bvec[k].len;
        k := k + 1;
      }
      iovOffset := size;
      bvec := bvec[k..];
    }
  }

  // ----- where a position falls in a registered buffer

  /** From segment i >= 1 on, all segments are whole pages but the last: division finds the place. */
  lemma {:induction false} FindTail(imu: Mapped, ubuf: nat, len: nat, pages: seq<nat>, i: nat, z: nat)
    requires Registered(imu, ubuf, len, pages) && 1 <= i < |pages| && z <= Rest(ubuf, len, i)
    ensures Find(imu.bvec[i..], z) == if z == Rest(ubuf, len, i) then Pos(|pages| - i, 0) else Pos(z / Page, z % Page)
    ensures z < Rest(ubuf, len, i) ==> z / Page < |pages| - i
    decreases |pages| - i
  {
    RestFacts(ubuf, len, i);
    var seg := imu.bvec[i];
    assert imu.bvec[i..][0] == seg && imu.bvec[i..][1..] == imu.bvec[i + 1..];
    if z >= seg.len {
      if i + 1 < |pages| {
        FindTail(imu, ubuf, len, pages, i + 1, z - Page);
      }
    }
  }

  lemma FindHead(imu: Mapped, ubuf: nat, len: nat, pages: seq<nat>, x: nat)
    requires Registered(imu, ubuf, len, pages) && x <= len
    ensures x < imu.bvec[0].len ==> Find(imu.bvec, x) == Pos(0, x)
    ensures x >= imu.bvec[0].len && x < len ==>
              |pages| > 1 && var y := x - imu.bvec[0].len; Find(imu.bvec, x) == Pos(1 + y / Page, y % Page) && 1 + y / Page < |pages|
    ensures x == len ==> Find(imu.bvec, x) == Pos(|pages|, 0)
  {
    RestFacts(ubuf, len, 0);
    if x >= imu.bvec[0].len && |pages| > 1 { FindTail(imu, ubuf, len, pages, 1, x - imu.bvec[0].len); }
  }

  lemma LocationAt(ubuf: nat, x: nat)
    ensures x < Page - ubuf % Page ==> (ubuf + x) / Page == ubuf / Page && (ubuf + x) % Page == ubuf % Page + x
    ensures x >= Page - ubuf % Page ==>
              var y := x - (Page - ubuf % Page); (ubuf + x) / Page == ubuf / Page + 1 + y / Page && (ubuf + x) % Page == y % Page
  {}

  /** The segment and place found by walking hold the byte at that address. */
  lemma FoundByte(imu: Mapped, ubuf: nat, len: nat, pages: seq<nat>, x: nat)
    requires Registered(imu, ubuf, len, pages) && x < len
    ensures ByteIs(imu.bvec, 0, pages, ubuf, ubuf, x)
  {
    FindHead(imu, ubuf, len, pages, x);
    LocationAt(ubuf, x);
    RestFacts(ubuf, len, 0);
    hide Find;
  }

  /** Walking in two stages is walking once. */
  lemma {:induction false} FindTwice(b: seq<BVec>, x: nat, i: nat)
    ensures var p := Find(b, x); var q := Find(b[p.seg..], p.inner + i); Find(b, x + i) == Pos(p.seg + q.seg, q.inner)
  {
    if b != [] && x >= b[0].len {
      FindTwice(b[1..], x - b[0].len, i);
      var p := Find(b, x);
      assert b[p.seg..] == b[1..][p.seg - 1..];
    } else {
      assert b[0..] == b;
    }
  }

  /** Plain advancing leaves an iterator over exactly the bytes from there on. */
  lemma PlainCovers(imu: Mapped, ubuf: nat, total: nat, pages: seq<nat>, offset: nat, len: nat)
    requires Registered(imu, ubuf, total, pages) && offset + len <= total
    ensures CoversFrom(imu.bvec[Find(imu.bvec, offset).seg..], Find(imu.bvec, offset).inner, pages, ubuf, ubuf + offset, len)
  {
    hide Registered, Find;
    var p := Find(imu.bvec, offset);
    var b, a := imu.bvec[p.seg..], ubuf + offset;
    forall i | 0 <= i < len ensures ByteIs(b, p.inner, pages, ubuf, a, i) {
      FindTwice(imu.bvec, offset, i);
      FoundByte(imu, ubuf, total, pages, offset + i);
    }
  }

  lemma ShortcutBounds(imu: Mapped, ubuf: nat, total: nat, pages: seq<nat>, y: nat, i: nat)
    requires Registered(imu, ubuf, total, pages) && imu.bvec[0].len + y + i < total
    ensures |pages| > 1 && imu.bvec[0].len == Page - ubuf % Page
    ensures 1 + y / Page < |pages| && y % Page + i < Rest(ubuf, total, 1 + y / Page)
  {
    hide Find;
    RestFacts(ubuf, total, 0);
    FindHead(imu, ubuf, total, pages, imu.bvec[0].len + y);
  }

  lemma SplitDiv(y: nat, i: nat)
    ensures (y + i) / Page == y / Page + (y % Page + i) / Page && (y + i) % Page == (y % Page + i) % Page
  {}

  /** The shortcut, index by shift and offset by mask, finds the same segment and place as walking. */
  lemma ShortcutFinds(imu: Mapped, ubuf: nat, total: nat, pages: seq<nat>, y: nat, i: nat)
    requires Registered(imu, ubuf, total, pages) && imu.bvec[0].len + y + i < total
    ensures 1 + y / Page < |imu.bvec|
    ensures var s := 1 + y / Page;
            var p := Find(imu.bvec[s..], y % Page + i);
            Pos(s + p.seg, p.inner) == Find(imu.bvec, imu.bvec[0].len + y + i)
  {
    ShortcutBounds(imu, ubuf, total, pages, y, i);
    FindHead(imu, ubuf, total, pages, imu.bvec[0].len + y + i);
    FindTail(imu, ubuf, total, pages, 1 + y / Page, y % Page + i);
    SplitDiv(y, i);
    hide Find, Rest;
  }

  lemma ShortcutCovers(imu: Mapped, ubuf: nat, total: nat, pages: seq<nat>, y: nat, len: nat)
    requires Registered(imu, ubuf, total, pages) && imu.bvec[0].len + y + len <= total && 1 + y / Page <= |imu.bvec|
    ensures CoversFrom(imu.bvec[1 + y / Page..], y % Page, pages, ubuf, ubuf + imu.bvec[0].len + y, len)
  {
    hide Find;
    var b, x, a := imu.bvec[1 + y / Page..], y % Page, ubuf + imu.bvec[0].len + y;
    forall i | 0 <= i < len ensures ByteIs(b, x, pages, ubuf, a, i) {
      ShortcutFinds(imu, ubuf, total, pages, y, i);
      FoundByte(imu, ubuf, total, pages, imu.bvec[0].len + y + i);
      hide Registered;
    }
  }

  /** The two iterators are the same but at the end of a buffer whose last page is partial. */
  lemma ShortcutIsPlain(imu: Mapped, ubuf: nat, total: nat, pages: seq<nat>, y: nat)
    requires Registered(imu, ubuf, total, pages) && imu.bvec[0].len + y <= total && y > 0
    ensures 1 + y / Page <= |imu.bvec|
    ensures (1 + y / Page == Find(imu.bvec, imu.bvec[0].len + y).seg && y % Page == Find(imu.bvec, imu.bvec[0].len + y).inner) <==>
            !(imu.bvec[0].len + y == total && y % Page != 0)
  {
    hide Find;
    FindHead(imu, ubuf, total, pages, imu.bvec[0].len + y);
    RestFacts(ubuf, total, 0);
    RestFacts(ubuf, total, |pages| - 1);
  }

  /** __io_import_fixed: succeeds exactly for ranges inside the buffer, and then the iterator covers
      exactly that range. It is the iterator that plain advancing gives, except at the very end of a
      buffer whose last page is partial, where both are empty. */
  method ImportFixed(iter: Iter, imu: Mapped, addr: nat, len: nat, ghost total: nat, ghost pages: seq<nat>) returns (ret: int)
    requires addr < U64 && len < U64
    requires imu == Dummy || (Registered(imu, imu.ubuf, total, pages) && imu.ubufEnd < U64)
    modifies iter
    ensures ret == if addr + len < U64 && imu.ubuf <= addr && addr + len <= imu.ubufEnd then 0 else EFault
    ensures ret != 0 ==> iter.bvec == old(iter.bvec) && iter.count == old(iter.count) && iter.iovOffset == old(iter.iovOffset)
    ensures ret == 0 ==> iter.Covers(pages, imu.ubuf, addr, len)
    ensures ret == 0 ==> imu != Dummy && (IsPlain(iter, imu, addr - imu.ubuf) <==> !PastPartial(imu, addr - imu.ubuf, total))
  {
    hide Find, CoversFrom, And, Rest, Registered;
    if imu != Dummy { FirstSegment(imu, imu.ubuf, total, pages); }
    if addr + len >= U64 { return EFault; }
    var bufEnd := addr + len;
    if addr < imu.ubuf || bufEnd > imu.ubufEnd { return EFault; }
    var offset := addr - imu.ubuf;
    iter.bvec, iter.count, iter.iovOffset := imu.bvec, offset + len, 0;
    PlainCovers(imu, imu.ubuf, total, pages, offset, len);
    ret := 0;
    if offset != 0 {
      if offset <= imu.bvec[0].len {
        iter.Advance(offset);
      } else {
        var rest := offset - imu.bvec[0].len;
        ShortcutIsPlain(imu, imu.ubuf, total, pages, rest);
        ShortcutCovers(imu, imu.ubuf, total, pages, rest, len);
        PageMask(rest);
        var skip := 1 + rest / Page;
        iter.bvec := imu.bvec[skip..];
        iter.count := iter.count - (imu.bvec[0].len + rest);
        iter.iovOffset := And(rest, Page - 1);
      }
    } else {
      FindHead(imu, imu.ubuf, total, pages, 0);
      assert imu.bvec[0..] == imu.bvec;
    }
  }

  lemma FirstSegment(imu: Mapped, ubuf: nat, total: nat, pages: seq<nat>)
    requires Registered(imu, ubuf, total, pages)
    ensures |imu.bvec| > 0 && 0 < imu.bvec[0].len <= total && imu.ubufEnd == ubuf + total
  {
    RestFacts(ubuf, total, 0);
  }

  ghost predicate IsPlain(iter: Iter, imu: Mapped, offset: nat)
    reads iter
  {
    iter.bvec == imu.bvec[Find(imu.bvec, offset).seg..] && iter.iovOffset == Find(imu.bvec, offset).inner
  }

  predicate PastPartial(imu: Mapped, offset: nat, total: nat)
    requires imu.bvec != []
  {
    offset == total && offset > imu.bvec[0].len && (total - imu.bvec[0].len) % Page != 0
  }
}
