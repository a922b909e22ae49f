/**
 Unsigned 32-bit arithmetic: results are taken modulo 2^32.
 */
module Word32 {
  import opened Basics
  import opened Bits

  function Wrap(x: int): (r: nat)
    ensures r < U32
  {
    x % U32
  }

  lemma WrapAdd(a: int, b: int)
    ensures Wrap(Wrap(a) + b) == Wrap(a + b)
  {}

  lemma WrapSub(a: int, b: int)
    ensures Wrap(Wrap(a) - Wrap(b)) == Wrap(a - b)
    ensures Wrap(Wrap(a) - b) == Wrap(a - b)
  {}

  lemma WrapSmall(a: int)
    requires 0 <= a < U32
    ensures Wrap(a) == a
  {}

  lemma ModOfMod(x: nat, d: nat, q: nat)
    requires d > 0 && q > 0
    ensures d * q > 0 && (x % (d * q)) % d == x % d
  {
    MulAtLeast(d, q);
    var m := d * q;
    assert x == m * (x / m) + x % m;
    MulAssoc(d, q, x / m);
    ModShift(d, q * (x / m), x % m);
  }

  lemma MulAssoc(a: nat, b: nat, c: nat)
    ensures (a * b) * c == a * (b * c)
  {}

  lemma ModShift(d: nat, j: nat, r: nat)
    requires d > 0
    ensures (d * j + r) % d == r % d
  {
    assert r == d * (r / d) + r % d;
    Distribute(d, j, r / d);
    DivModUnique(d * j + r, d, j + r / d, r % d);
  }

  /** Masking a wrapped counter by a power of two gives the counter's place in a ring of that size. */
  lemma RingSlot(x: nat, k: nat)
    requires k <= 32
    ensures And(Wrap(x), Pow2(k) - 1) == x % Pow2(k)
  {
    AndLowMask(Wrap(x), k);
    WordPowers();
    Pow2Sum(k, 32 - k);
    ModOfMod(x, Pow2(k), Pow2(32 - k));
  }

  /** Counters less than a ring apart have different places. */
  lemma SlotsDiffer(i: nat, j: nat, d: nat)
    requires i < j < i + d
    ensures i % d != j % d
  {
    if i % d == j % d {
      assert i == d * (i / d) + i % d && j == d * (j / d) + j % d;
      assert j - i == d * (j / d - i / d) by { Distribute(d, j / d, -(i / d)); }
      NoMultiple(d, j / d - i / d);
    }
  }

  lemma NoMultiple(d: int, k: int)
    requires d > 0
    ensures !(0 < d * k < d)
  {
    if k >= 1 { assert d * (k - 1) >= 0; }
    if k < 0 { assert d * (-k) >= 0; }
  }
}
