/**
 Decoding the server's buffer table: each descriptor is cut into chunks that fill the table of
 remote buffers in order.
 */
module InfoRsp {
  import opened Basics
  import opened Bits

  const EInval: int := -22

  datatype Desc = Desc(addr: nat, key: nat, len: nat)

  datatype Rbuf = Rbuf(addr: nat, rkey: nat)

  /** The chunks of one descriptor; addresses wrap at 64 bits. */
  function Chunks(d: Desc, chunk: nat): (r: seq<Rbuf>)
    requires chunk > 0
    ensures |r| == d.len / chunk
  {
    seq(d.len / chunk, k requires 0 <= k => Rbuf((d.addr + k * chunk) % U64, d.key))
  }

  function AllChunks(ds: seq<Desc>, chunk: nat): seq<Rbuf>
    requires chunk > 0
  {
    if ds == [] then [] else AllChunks(ds[..|ds| - 1], chunk) + Chunks(ds[|ds| - 1], chunk)
  }

  /** The sum of the lengths, as an integer. */
  function Sum(ds: seq<Desc>): nat {
    if ds == [] then 0 else Sum(ds[..|ds| - 1]) + ds[|ds| - 1].len
  }

  /** The greatest k with 2^k <= n, and -1 for zero. */
  function Log2(n: nat): int {
    if n == 0 then -1 else 1 + Log2(n / 2)
  }

  predicate Whole(d: Desc, chunk: nat)
    requires chunk > 0
  {
    d.len != 0 && d.len % chunk == 0
  }

  ghost predicate AllWhole(ds: seq<Desc>, chunk: nat)
    requires chunk > 0
  {
    forall i :: 0 <= i < |ds| ==> Whole(ds[i], chunk)
  }

  predicate ImmediateFits(count: nat, chunk: nat, maxBits: int)
    requires count > 0 && chunk > 0
  {
    (Log2(count - 1) + 1) + (Log2(chunk - 1) + 1) <= maxBits
  }

  /** The least number of bits in which the numbers below n can be told apart. */
  ghost predicate BitsFor(n: nat, a: nat) {
    n <= Pow2(a) && (a > 0 ==> Pow2(a - 1) < n)
  }

  lemma {:induction false} Log2Bits(n: nat) returns (a: nat)
    requires n > 0
    ensures a == Log2(n - 1) + 1 && BitsFor(n, a)
  {
    if n == 1 {
      a := 0;
    } else {
      var h := Log2Bits((n - 1) / 2 + 1);
      a := h + 1;
      assert Pow2(a) == 2 * Pow2(h) && (h > 0 ==> Pow2(h) == 2 * Pow2(h - 1));
      assert Pow2(0) == 1;
    }
  }

  lemma BitsLeast(n: nat, a: nat, b: nat)
    requires BitsFor(n, a) && n <= Pow2(b)
    ensures a <= b
  {
    if b < a - 1 { Pow2Monotone(b, a - 1); }
    hide Pow2;
  }

  lemma ImmediateIsBits(count: nat, chunk: nat, maxBits: int)
    requires count > 0 && chunk > 0
    ensures ImmediateFits(count, chunk, maxBits) <==> exists a: nat, b: nat :: count <= Pow2(a) && chunk <= Pow2(b) && a + b <= maxBits
  {
    var a := Log2Bits(count);
    var b := Log2Bits(chunk);
    hide Log2, Pow2;
    assert count <= Pow2(a) && chunk <= Pow2(b);
    if c: nat, d: nat :| count <= Pow2(c) && chunk <= Pow2(d) && c + d <= maxBits {
      BitsLeast(count, a, c);
      BitsLeast(chunk, b, d);
    }
  }

  // ----- counting chunks

  lemma WholeLen(d: Desc, chunk: nat)
    requires chunk > 0 && Whole(d, chunk)
    ensures d.len == chunk * (d.len / chunk) && d.len / chunk >= 1
  {}

  lemma {:induction false} SumIsChunks(ds: seq<Desc>, chunk: nat)
    requires chunk > 0 && AllWhole(ds, chunk)
    ensures Sum(ds) == chunk * |AllChunks(ds, chunk)| && |AllChunks(ds, chunk)| >= |ds|
  {
    if ds != [] {
      var d := ds[|ds| - 1];
      SumIsChunks(ds[..|ds| - 1], chunk);
      WholeLen(d, chunk);
      Distribute(chunk, |AllChunks(ds[..|ds| - 1], chunk)|, d.len / chunk);
    }
  }

  lemma {:induction false} LengthGrows(ds: seq<Desc>, n: nat, chunk: nat)
    requires chunk > 0 && n <= |ds| && AllWhole(ds, chunk)
    ensures |AllChunks(ds, chunk)| >= |AllChunks(ds[..n], chunk)| + (|ds| - n)
    decreases |ds|
  {
    if n < |ds| {
      var front := ds[..|ds| - 1];
      assert front[..n] == ds[..n];
      LengthGrows(front, n, chunk);
      WholeLen(ds[|ds| - 1], chunk);
    } else {
      assert ds[..n] == ds;
    }
  }

  // ----- filling the table

  /** The address of the k-th chunk, and the bytes from there on. */
  function ChunkAddr(d: Desc, chunk: nat, k: nat): nat {
    (d.addr + k * chunk) % U64
  }

  function BytesLeft(d: Desc, chunk: nat, k: nat): int
    requires chunk > 0
  {
    chunk * (d.len / chunk - k)
  }

  /** Fills the table from place i on with the chunks of one descriptor, as far as it goes. */
  method FillChunks(rbufs: array<Rbuf>, first: nat, depth: nat, d: Desc, chunk: nat) returns (i: nat)
    requires chunk > 0 && Whole(d, chunk) && first <= depth <= rbufs.Length && d.addr < U64
    modifies rbufs
    ensures i == Min(depth, first + d.len / chunk)
    ensures forall k :: first <= k < i ==> rbufs[k] == Chunks(d, chunk)[k - first]
    ensures forall k :: 0 <= k < rbufs.Length && !(first <= k < i) ==> rbufs[k] == old(rbufs[k])
  {
    i := first;
    var len, addr := d.len, d.addr;
    FirstChunk(d, chunk);
    hide ChunkAddr, BytesLeft, Whole, Chunks;
    while len != 0 && i < depth
      invariant first <= i <= depth && i - first <= d.len / chunk
      invariant len == BytesLeft(d, chunk, i - first) && addr == ChunkAddr(d, chunk, i - first)
      invariant forall k :: first <= k < i ==> rbufs[k] == Chunks(d, chunk)[k - first]
      invariant forall k :: 0 <= k < rbufs.Length && !(first <= k < i) ==> rbufs[k] == old(rbufs[k])
      decreases depth - i
    {
      OneChunk(d, chunk, i - first);
      rbufs[i] := Rbuf(addr, d.key);
      len := len - chunk;
      addr := (addr + chunk) % U64;
      i := i + 1;
    }
    if len == 0 { AllDone(d, chunk, i - first); }
  }

  lemma FirstChunk(d: Desc, chunk: nat)
    requires chunk > 0 && Whole(d, chunk) && d.addr < U64
    ensures BytesLeft(d, chunk, 0) == d.len && ChunkAddr(d, chunk, 0) == d.addr
  {
    WholeLen(d, chunk);
  }

  lemma OneChunk(d: Desc, chunk: nat, k: nat)
    requires chunk > 0 && k <= d.len / chunk && BytesLeft(d, chunk, k) != 0
    ensures k < d.len / chunk && Chunks(d, chunk)[k] == Rbuf(ChunkAddr(d, chunk, k), d.key)
    ensures BytesLeft(d, chunk, k) - chunk == BytesLeft(d, chunk, k + 1) && BytesLeft(d, chunk, k + 1) >= 0
    ensures (ChunkAddr(d, chunk, k) + chunk) % U64 == ChunkAddr(d, chunk, k + 1)
  {
    var n := d.len / chunk - k;
    Distribute(chunk, n - 1, 1);
    MulMonotone(chunk, 0, n - 1);
    NextAddr(d.addr, k, chunk);
  }

  lemma NextAddr(addr: nat, k: nat, chunk: nat)
    ensures ((addr + k * chunk) % U64 + chunk) % U64 == (addr + (k + 1) * chunk) % U64
  {
    assert (k + 1) * chunk == k * chunk + chunk;
    AddMod(addr + k * chunk, chunk);
  }

  lemma AddMod(a: nat, b: nat)
    ensures (a % U64 + b) % U64 == (a + b) % U64
  {}

  lemma AllDone(d: Desc, chunk: nat, k: nat)
    requires chunk > 0 && k <= d.len / chunk && BytesLeft(d, chunk, k) == 0
    ensures k == d.len / chunk
  {
    NoneLeft(chunk, d.len / chunk - k);
  }

  lemma NoneLeft(c: nat, n: nat)
    requires c > 0 && c * n == 0
    ensures n == 0
  {}

  /** The table has the k-th chunk of descriptor j where the earlier descriptors end. */
  ghost predicate ChunkHere(table: seq<Rbuf>, ds: seq<Desc>, chunk: nat, j: int, k: int)
    requires chunk > 0 && 0 <= j < |ds| && k >= 0
  {
    var at := Sum(ds[..j]) / chunk + k;
    at < |table| && table[at].rkey == ds[j].key && table[at].addr == (ds[j].addr + k * chunk) % U64
  }

  lemma {:induction false} ChunksPlaced(ds: seq<Desc>, count: nat, chunk: nat, j: nat, k: nat)
    requires chunk > 0 && j < count <= |ds| && AllWhole(ds[..count], chunk) && k < ds[j].len / chunk
    ensures ChunkHere(AllChunks(ds[..count], chunk), ds, chunk, j, k)
    decreases count
  {
    OneMore(ds, count - 1, chunk);
    WholeFront(ds, count - 1, count, chunk);
    if j < count - 1 {
      ChunksPlaced(ds, count - 1, chunk, j, k);
    } else {
      SumIsChunks(ds[..j], chunk);
      hide AllChunks, Sum;
      var n := |AllChunks(ds[..j], chunk)|;
      DivModUnique(Sum(ds[..j]), chunk, n, 0);
    }
  }

  lemma WholeExactly(ds: seq<Desc>, count: nat, chunk: nat)
    requires chunk > 0 && count <= |ds|
    ensures AllWhole(ds[..count], chunk) <==> forall i :: 0 <= i < count ==> ds[i].len > 0 && ds[i].len % chunk == 0
  {
    if AllWhole(ds[..count], chunk) { forall i | 0 <= i < count ensures ds[i].len > 0 && ds[i].len % chunk == 0 { assert Whole(ds[..count][i], chunk); } }
  }

  lemma WholeFront(ds: seq<Desc>, n: nat, count: nat, chunk: nat)
    requires chunk > 0 && n <= count <= |ds| && AllWhole(ds[..count], chunk)
    ensures AllWhole(ds[..n], chunk)
  {
    forall i | 0 <= i < n ensures Whole(ds[..n][i], chunk) { assert ds[..count][i] == ds[i]; }
  }

  /** process_info_rsp. The sum is taken modulo 2^32, and so is the product unless it is computed in
      a wider type; the table is filled with consecutive chunks all the same. */
  method ProcessInfoRsp(rbufs: array<Rbuf>, ds: seq<Desc>, count: nat, chunk: nat, depth: nat, maxBits: int, wide: bool) returns (ret: int)
    requires 0 < chunk < U32 && count <= |ds| && rbufs.Length == depth
    requires forall i :: 0 <= i < |ds| ==> ds[i].len < U32 && ds[i].addr < U64
    modifies rbufs
    ensures ret == 0 || ret == EInval
    ensures ret == 0 <==>
              && count != 0 && depth % count == 0
              && (exists a: nat, b: nat :: count <= Pow2(a) && chunk <= Pow2(b) && a + b <= maxBits)
              && (forall i :: 0 <= i < count ==> ds[i].len > 0 && ds[i].len % chunk == 0)
              && Sum(ds[..count]) == chunk * depth && (wide ==> chunk * depth < U32)
    // the k-th chunk of descriptor j comes after those of the descriptors before it
    ensures ret == 0 ==> forall j, k :: 0 <= j < count && 0 <= k < ds[j].len / chunk ==>
              ChunkHere(rbufs[..], ds, chunk, j, k)
    ensures ret == 0 ==> rbufs[..] == AllChunks(ds[..count], chunk)
  {
    hide Chunks, AllChunks, Sum, ImmediateFits, AllWhole, ChunkHere, Pow2;
    if count == 0 || depth % count != 0 { return EInval; }
    ImmediateIsBits(count, chunk, maxBits);
    WholeExactly(ds, count, chunk);
    if !ImmediateFits(count, chunk, maxBits) { return EInval; }
    var bad, total, sgi, i := FillTable(rbufs, ds, count, chunk, depth);
    if bad { return EInval; }
    if sgi != count || i != depth {
      NotFilled(ds, count, sgi, chunk, depth);
      return EInval;
    }
    LastPart(ds, count, chunk, depth);
    var product := if wide then chunk * depth else (chunk * depth) % U32;
    SameTotal(Sum(ds[..count]), chunk * depth, wide);
    if total != product { return EInval; }
    SumIsChunks(ds[..count], chunk);
    SameFactor(chunk, |AllChunks(ds[..count], chunk)|, depth);
    assert rbufs[..] == AllChunks(ds[..count], chunk);
    forall j, k | 0 <= j < count && 0 <= k < ds[j].len / chunk ensures ChunkHere(rbufs[..], ds, chunk, j, k) { ChunksPlaced(ds, count, chunk, j, k); }
    ret := 0;
  }

  /** The nested loops: stops at the first bad descriptor, or when the table is full. */
  method FillTable(rbufs: array<Rbuf>, ds: seq<Desc>, count: nat, chunk: nat, depth: nat) returns (bad: bool, total: nat, sgi: nat, i: nat)
    requires 0 < chunk < U32 && count <= |ds| && rbufs.Length == depth
    requires forall i :: 0 <= i < |ds| ==> ds[i].len < U32 && ds[i].addr < U64
    modifies rbufs
    ensures bad ==> !AllWhole(ds[..count], chunk)
    ensures sgi <= count && AllWhole(ds[..sgi], chunk) && (!bad ==> sgi == count || i == depth)
    ensures i == Min(depth, |AllChunks(ds[..sgi], chunk)|)
    ensures forall k :: 0 <= k < i ==> rbufs[k] == AllChunks(ds[..sgi], chunk)[k]
    ensures !bad ==> total == Sum(ds[..sgi]) % U32
    ensures sgi > 0 ==> |AllChunks(ds[..sgi - 1], chunk)| < depth
  {
    bad, total, sgi, i := false, 0, 0, 0;
    hide Chunks, AllChunks, Sum, AllWhole;
    Nothing(chunk);
    assert ds[..0] == [] && AllWhole([], chunk) by { NoDescs(chunk); }
    while sgi < count && i < depth
      invariant sgi <= count && AllWhole(ds[..sgi], chunk) && !bad
      invariant i == Min(depth, |AllChunks(ds[..sgi], chunk)|)
      invariant forall k :: 0 <= k < i ==> rbufs[k] == AllChunks(ds[..sgi], chunk)[k]
      invariant total == Sum(ds[..sgi]) % U32
      invariant sgi > 0 ==> |AllChunks(ds[..sgi - 1], chunk)| < depth
      decreases count - sgi
    {
      var d := ds[sgi];
      OneMore(ds, sgi, chunk);
      WholeMore(ds, sgi, count, chunk);
      ModAdd(Sum(ds[..sgi]), d.len);
      total := (total + d.len) % U32;
      if d.len == 0 || d.len % chunk != 0 {
        return true, total, sgi, i;
      }
      ghost var before := AllChunks(ds[..sgi], chunk);
      i := FillChunks(rbufs, i, depth, d, chunk);
      forall k | 0 <= k < i ensures rbufs[k] == AllChunks(ds[..sgi + 1], chunk)[k] {
        assert AllChunks(ds[..sgi + 1], chunk)[k] == if k < |before| then before[k] else Chunks(d, chunk)[k - |before|];
      }
      sgi := sgi + 1;
    }
  }

  lemma ModAdd(a: nat, b: nat)
    ensures (a % U32 + b) % U32 == (a + b) % U32
  {}

  lemma NoDescs(chunk: nat)
    requires chunk > 0
    ensures AllWhole([], chunk)
  {}

  lemma WholeMore(ds: seq<Desc>, n: nat, count: nat, chunk: nat)
    requires chunk > 0 && n < count <= |ds| && AllWhole(ds[..n], chunk)
    ensures AllWhole(ds[..n + 1], chunk) <==> Whole(ds[n], chunk)
    ensures !Whole(ds[n], chunk) ==> !AllWhole(ds[..count], chunk)
  {
    assert ds[..n + 1][n] == ds[n] && ds[..count][n] == ds[n];
    assert forall i :: 0 <= i < n ==> ds[..n + 1][i] == ds[..n][i];
    hide Whole;
  }

  lemma Nothing(chunk: nat)
    requires chunk > 0
    ensures AllChunks([], chunk) == [] && Sum([]) == 0
  {}

  lemma OneMore(ds: seq<Desc>, n: nat, chunk: nat)
    requires chunk > 0 && n < |ds|
    ensures AllChunks(ds[..n + 1], chunk) == AllChunks(ds[..n], chunk) + Chunks(ds[n], chunk)
    ensures Sum(ds[..n + 1]) == Sum(ds[..n]) + ds[n].len
  {
    assert ds[..n + 1][..n] == ds[..n];
  }

  lemma NotFilled(ds: seq<Desc>, count: nat, sgi: nat, chunk: nat, depth: nat)
    requires chunk > 0 && sgi <= count <= |ds|
    requires if sgi < count then |AllChunks(ds[..sgi], chunk)| >= depth else |AllChunks(ds[..sgi], chunk)| < depth
    ensures !(AllWhole(ds[..count], chunk) && Sum(ds[..count]) == chunk * depth)
  {
    if AllWhole(ds[..count], chunk) {
      hide AllChunks, Sum;
      assert ds[..count][..sgi] == ds[..sgi];
      LengthGrows(ds[..count], sgi, chunk);
      SumIsChunks(ds[..count], chunk);
      if Sum(ds[..count]) == chunk * depth { SameFactor(chunk, |AllChunks(ds[..count], chunk)|, depth); }
    }
  }

  lemma SameFactor(c: nat, a: nat, b: nat)
    requires c > 0 && c * a == c * b
    ensures a == b
  {
    if a < b { Distribute(c, a, b - a); NoneLeft(c, b - a); }
    if a > b { Distribute(c, b, a - b); NoneLeft(c, a - b); }
  }

  /** What exceeds the table is less than the last descriptor. */
  lemma LastPart(ds: seq<Desc>, count: nat, chunk: nat, depth: nat)
    requires chunk > 0 && 0 < count <= |ds| && AllWhole(ds[..count], chunk) && ds[count - 1].len < U32
    requires |AllChunks(ds[..count - 1], chunk)| < depth <= |AllChunks(ds[..count], chunk)|
    ensures chunk * depth <= Sum(ds[..count]) < chunk * depth + U32
  {
    hide AllChunks, Sum;
    OneMore(ds, count - 1, chunk);
    SumIsChunks(ds[..count], chunk);
    SumIsChunks(ds[..count - 1], chunk);
    MulMonotone(chunk, depth, |AllChunks(ds[..count], chunk)|);
    MulMonotone(chunk, |AllChunks(ds[..count - 1], chunk)|, depth);
  }

  /** So the check modulo 2^32 is exact. */
  lemma SameTotal(sum: nat, product: nat, wide: bool)
    requires product <= sum < product + U32
    ensures sum % U32 == (if wide then product else product % U32) <==> sum == product && (wide ==> product < U32)
  {}
}
