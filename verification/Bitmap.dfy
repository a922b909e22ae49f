/**
 The slot bitmaps of cluster nodes: one bit per hash slot, packed in bytes.
 */
module Bitmap {

  const Slots: nat := 16384

  type Bitmap = b: seq<bv8> | 8 * |b| == Slots witness seq(2048, _ => 0)

  function Mask(k: nat): bv8
    requires k < 8
  {
    1 << k
  }

  predicate Has(x: bv8, k: nat)
    requires k < 8
  {
    x & Mask(k) != 0
  }

  function MaskOn(x: bv8, k: nat): bv8
    requires k < 8
  {
    x | Mask(k)
  }

  function MaskOff(x: bv8, k: nat): bv8
    requires k < 8
  {
    x & !Mask(k)
  }

  predicate TestBit(b: Bitmap, pos: nat)
    requires pos < Slots
  {
    Has(b[pos / 8], pos % 8)
  }

  function SetBit(b: Bitmap, pos: nat): Bitmap
    requires pos < Slots
  {
    b[pos / 8 := MaskOn(b[pos / 8], pos % 8)]
  }

  function ClearBit(b: Bitmap, pos: nat): Bitmap
    requires pos < Slots
  {
    b[pos / 8 := MaskOff(b[pos / 8], pos % 8)]
  }

  function Empty(): Bitmap {
    seq(2048, _ => 0)
  }

  lemma MaskBits(x: bv8, i: nat, j: nat)
    requires i < 8 && j < 8
    ensures Has(MaskOn(x, i), j) <==> i == j || Has(x, j)
    ensures Has(MaskOff(x, i), j) <==> i != j && Has(x, j)
  {
    MaskValue(i);
    MaskValue(j);
  }

  lemma MaskValue(k: nat)
    requires k < 8
    ensures Mask(k) == match k case 0 => 1 case 1 => 2 case 2 => 4 case 3 => 8 case 4 => 16 case 5 => 32 case 6 => 64 case _ => 128
  {}

  /** Writing one bit changes that bit and no other. */
  lemma WriteBit(b: Bitmap, pos: nat, q: nat)
    requires pos < Slots && q < Slots
    ensures TestBit(SetBit(b, pos), q) <==> q == pos || TestBit(b, q)
    ensures TestBit(ClearBit(b, pos), q) <==> q != pos && TestBit(b, q)
  {
    var i, k, i', k' := pos / 8, pos % 8, q / 8, q % 8;
    assert i == i' && k == k' <==> pos == q;
    hide Has, MaskOn, MaskOff;
    MaskBits(b[i], k, k');
  }

  lemma EmptyBits(q: nat)
    requires q < Slots
    ensures !TestBit(Empty(), q)
  {}

  /** The number of set bits below `k`; the popcount is `Count(b, Slots)`. */
  function Count(b: Bitmap, k: nat): nat
    requires k <= Slots
  {
    if k == 0 then 0 else Count(b, k - 1) + if TestBit(b, k - 1) then 1 else 0
  }

  function Popcount(b: Bitmap): nat {
    Count(b, Slots)
  }

  lemma {:induction false} CountWrite(b: Bitmap, pos: nat, k: nat)
    requires pos < Slots && k <= Slots
    ensures !TestBit(b, pos) ==> Count(SetBit(b, pos), k) == Count(b, k) + if pos < k then 1 else 0
    ensures TestBit(b, pos) ==> Count(ClearBit(b, pos), k) == Count(b, k) - if pos < k then 1 else 0
  {
    hide TestBit, SetBit, ClearBit;
    if k > 0 {
      CountWrite(b, pos, k - 1);
      WriteBit(b, pos, k - 1);
    }
  }

  lemma {:induction false} CountZero(b: Bitmap, k: nat)
    requires k <= Slots
    ensures Count(b, k) == 0 <==> forall j :: 0 <= j < k ==> !TestBit(b, j)
  {
    hide TestBit;
    if k > 0 { CountZero(b, k - 1); }
  }

  lemma {:induction false} CountFull(b: Bitmap, k: nat)
    requires k <= Slots
    ensures Count(b, k) <= k && (Count(b, k) == k <==> forall j :: 0 <= j < k ==> TestBit(b, j))
  {
    hide TestBit;
    if k > 0 { CountFull(b, k - 1); }
  }

  lemma EmptyCount()
    ensures Popcount(Empty()) == 0
  {
    hide Count;
    CountZero(Empty(), Slots);
  }

  lemma ByteBits(x: bv8, y: bv8)
    requires forall k :: 0 <= k < 8 ==> (Has(x, k) <==> Has(y, k))
    ensures x == y
  {
    assert Has(x, 0) <==> Has(y, 0);
    assert Has(x, 1) <==> Has(y, 1);
    assert Has(x, 2) <==> Has(y, 2);
    assert Has(x, 3) <==> Has(y, 3);
    assert Has(x, 4) <==> Has(y, 4);
    assert Has(x, 5) <==> Has(y, 5);
    assert Has(x, 6) <==> Has(y, 6);
    assert Has(x, 7) <==> Has(y, 7);
  }

  /** Bitmaps with the same bits have the same bytes. */
  lemma SameBits(a: Bitmap, b: Bitmap)
    requires forall j :: 0 <= j < Slots ==> (TestBit(a, j) <==> TestBit(b, j))
    ensures a == b
  {
    hide Has;
    forall i | 0 <= i < |a| ensures a[i] == b[i] {
      forall k | 0 <= k < 8 ensures Has(a[i], k) <==> Has(b[i], k) {
        var j := 8 * i + k;
        assert j / 8 == i && j % 8 == k;
        assert TestBit(a, j) <==> TestBit(b, j);
      }
      ByteBits(a[i], b[i]);
    }
  }
}
