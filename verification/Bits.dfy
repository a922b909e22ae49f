/**
 Machine words as natural numbers: the bitwise operators the C code uses on unsigned words,
 with the facts that connect masks to arithmetic.
 */
module Bits {

  function Pow2(k: nat): (p: nat)
    ensures p >= 1
  {
    if k == 0 then 1 else 2 * Pow2(k - 1)
  }

  predicate Bit(x: nat, i: nat) {
    if i == 0 then x % 2 == 1 else Bit(x / 2, i - 1)
  }

  function And(a: nat, b: nat): (r: nat)
    ensures r <= a && r <= b
  {
    if a == 0 || b == 0 then 0 else 2 * And(a / 2, b / 2) + (a % 2) * (b % 2)
  }

  function Or(a: nat, b: nat): nat
    decreases a + b
  {
    if a == 0 then b else if b == 0 then a
    else 2 * Or(a / 2, b / 2) + (if a % 2 == 1 || b % 2 == 1 then 1 else 0)
  }

  function Xor(a: nat, b: nat): nat
    decreases a + b
  {
    if a == 0 then b else if b == 0 then a
    else 2 * Xor(a / 2, b / 2) + (a + b) % 2
  }

  predicate PowerIn(low: int, k: nat, high: int) {
    low < Pow2(k) <= high
  }

  /** There is a power of two between them. */
  ghost predicate PowerBetween(low: int, high: int) {
    exists k: nat :: PowerIn(low, k, high)
  }

  lemma PowerHalf(a: nat, b: nat, k: nat)
    ensures PowerIn(b / 2, k, a / 2) <==> PowerIn(b, k + 1, a)
  {
    assert Pow2(k + 1) == 2 * Pow2(k);
    hide Pow2;
  }

  /** `a ^ b > b` says that a has a higher bit than b: that there is a power of two between them. */
  lemma {:induction false} XorGreater(a: nat, b: nat)
    requires a >= b > 0
    ensures Xor(a, b) > b <==> PowerBetween(b, a)
    ensures Xor(a, b) != b
    decreases b
  {
    assert Xor(a, b) == 2 * Xor(a / 2, b / 2) + (a + b) % 2;
    if b == 1 {
      XorZero(a / 2);
      hide Xor;
      XorOne(a);
    } else {
      hide Xor;
      XorGreater(a / 2, b / 2);
      if Xor(a / 2, b / 2) > b / 2 {
        var k: nat :| PowerIn(b / 2, k, a / 2);
        PowerHalf(a, b, k);
      } else {
        forall k: nat ensures !PowerIn(b, k, a) { NoPower(a, b, k); }
      }
    }
  }

  lemma XorZero(a: nat)
    ensures Xor(a, 0) == a
  {}

  lemma XorOne(a: nat)
    requires a > 0
    ensures a >= 2 <==> PowerBetween(1, a)
  {
    assert Pow2(1) == 2;
    if a >= 2 { assert PowerIn(1, 1, a); }
  }

  lemma NoPower(a: nat, b: nat, k: nat)
    requires b > 0 && forall j: nat :: !PowerIn(b / 2, j, a / 2)
    ensures !PowerIn(b, k, a)
  {
    if k > 0 { PowerHalf(a, b, k - 1); }
  }

  /** Complement of a `w`-bit word. */
  function Not(x: nat, w: nat): nat
    requires x < Pow2(w)
  {
    Pow2(w) - 1 - x
  }

  /** Two's complement negation of the power of two `1 << i` in a `w`-bit word. */
  function NegPow2(i: nat, w: nat): nat
    requires i < w
  {
    Pow2Monotone(i, w);
    Pow2(w) - Pow2(i)
  }

  /** Count of trailing zeros of a non-zero word. */
  function FirstSet(x: nat): (i: nat)
    requires x != 0
    ensures Bit(x, i) && forall j: nat :: j < i ==> !Bit(x, j)
  {
    if x % 2 == 1 then 0
    else
      var i := FirstSet(x / 2);
      assert forall j: nat :: 0 < j < i + 1 ==> Bit(x, j) == Bit(x / 2, j - 1);
      i + 1
  }

  lemma {:induction false} Pow2Monotone(i: nat, j: nat)
    requires i < j
    ensures Pow2(i) < Pow2(j)
    decreases j
  {
    if i < j - 1 { Pow2Monotone(i, j - 1); }
  }

  lemma {:induction false} Pow2Sum(i: nat, j: nat)
    ensures Pow2(i + j) == Pow2(i) * Pow2(j)
  {
    if i > 0 {
      Pow2Sum(i - 1, j);
      assert 2 * (Pow2(i - 1) * Pow2(j)) == (2 * Pow2(i - 1)) * Pow2(j);
    }
  }

  lemma {:induction false} BitZero(i: nat)
    ensures !Bit(0, i)
  {
    if i > 0 { BitZero(i - 1); }
  }

  lemma BitProduct(x: nat, y: nat)
    requires x < 2 && y < 2
    ensures x * y == if x == 1 && y == 1 then 1 else 0
  {}

  lemma AndHalf(a: nat, b: nat)
    ensures And(a, b) / 2 == And(a / 2, b / 2)
    ensures And(a, b) % 2 == 1 <==> a % 2 == 1 && b % 2 == 1
  {
    var q, r := And(a / 2, b / 2), if a % 2 == 1 && b % 2 == 1 then 1 else 0;
    BitProduct(a % 2, b % 2);
    assert And(a, b) == 2 * q + r;
    hide And;
  }

  lemma OrHalf(a: nat, b: nat)
    requires a != 0 && b != 0
    ensures Or(a, b) / 2 == Or(a / 2, b / 2)
    ensures Or(a, b) % 2 == 1 <==> a % 2 == 1 || b % 2 == 1
  {
    var q, r := Or(a / 2, b / 2), if a % 2 == 1 || b % 2 == 1 then 1 else 0;
    assert Or(a, b) == 2 * q + r;
  }

  lemma {:induction false} BitAnd(a: nat, b: nat, i: nat)
    ensures Bit(And(a, b), i) == (Bit(a, i) && Bit(b, i))
    decreases i
  {
    AndHalf(a, b);
    if i > 0 { BitAnd(a / 2, b / 2, i - 1); }
  }

  lemma {:induction false} BitOr(a: nat, b: nat, i: nat)
    ensures Bit(Or(a, b), i) == (Bit(a, i) || Bit(b, i))
    decreases i
  {
    if a == 0 || b == 0 { BitZero(i); }
    else {
      OrHalf(a, b);
      if i > 0 { BitOr(a / 2, b / 2, i - 1); }
    }
  }

  lemma {:induction false} BitPow2(i: nat, j: nat)
    ensures Bit(Pow2(i), j) == (i == j)
    decreases j
  {
    if i == 0 {
      if j > 0 { BitZero(j - 1); }
    } else if j > 0 {
      assert Pow2(i) / 2 == Pow2(i - 1);
      BitPow2(i - 1, j - 1);
    }
  }

  lemma {:induction false} BitNot(x: nat, w: nat, j: nat)
    requires x < Pow2(w) && j < w
    ensures Bit(Not(x, w), j) == !Bit(x, j)
    decreases j
  {
    HalfBelow(Pow2(w - 1), x);
    if j > 0 {
      BitNot(x / 2, w - 1, j - 1);
    }
  }

  lemma {:induction false} BitNegPow2(i: nat, w: nat, j: nat)
    requires i < w && j < w
    ensures Bit(NegPow2(i, w), j) == (i <= j)
    decreases j
  {
    Pow2Monotone(i, w);
    assert Pow2(w) == 2 * Pow2(w - 1);
    if i == 0 {
      assert NegPow2(0, w) == Not(0, w);
      BitNot(0, w, j);
      BitZero(j);
    } else if j > 0 {
      assert Pow2(i) == 2 * Pow2(i - 1);
      Pow2Monotone(i - 1, w - 1);
      assert NegPow2(i, w) / 2 == NegPow2(i - 1, w - 1);
      BitNegPow2(i - 1, w - 1, j - 1);
    }
  }

  /** A word with no bit set is zero. */
  lemma {:induction false} NoBitsIsZero(x: nat)
    requires forall i: nat :: !Bit(x, i)
    ensures x == 0
  {
    if x != 0 { var i := FirstSet(x); }
  }

  /** Above the word width there are no bits. */
  lemma {:induction false} HighBitsClear(x: nat, w: nat, i: nat)
    requires x < Pow2(w) && i >= w
    ensures !Bit(x, i)
    decreases w
  {
    if w == 0 { BitZero(i); } else { HighBitsClear(x / 2, w - 1, i - 1); }
  }

  lemma {:induction false} OrBound(a: nat, b: nat, w: nat)
    requires a < Pow2(w) && b < Pow2(w)
    ensures Or(a, b) < Pow2(w)
    decreases w
  {
    if w > 0 && a != 0 && b != 0 { OrBound(a / 2, b / 2, w - 1); }
  }

  lemma ModHalf(x: nat, p: nat)
    requires p >= 1
    ensures x % (2 * p) == 2 * ((x / 2) % p) + x % 2
  {
    var q, r := (x / 2) / p, (x / 2) % p;
    assert x / 2 == p * q + r;
    assert x == (2 * p) * q + (2 * r + x % 2);
    DivModUnique(x, 2 * p, q, 2 * r + x % 2);
  }

  lemma {:induction false} MulAtLeast(d: nat, k: nat)
    requires k >= 1
    ensures d * k >= d
  {
    if k > 1 { MulAtLeast(d, k - 1); }
  }

  lemma DivModUnique(x: nat, d: nat, q: nat, r: nat)
    requires d > 0 && r < d && x == d * q + r
    ensures x / d == q && x % d == r
  {
    var q' := x / d;
    if q' < q {
      assert d * (q - q') == d * q - d * q';
      MulAtLeast(d, q - q');
    } else if q < q' {
      assert d * (q' - q) == d * q' - d * q;
      MulAtLeast(d, q' - q);
    }
  }

  lemma HalfBelow(p: nat, x: nat)
    requires x < 2 * p
    ensures x / 2 < p && (2 * p - 1 - x) / 2 == p - 1 - x / 2
    ensures (2 * p - 1 - x) % 2 == 1 - x % 2
  {}

  lemma AndOdd(a: nat, b: nat)
    ensures And(a, 2 * b + 1) == 2 * And(a / 2, b) + a % 2
  {
    if a > 0 { assert (2 * b + 1) / 2 == b && (2 * b + 1) % 2 == 1; }
  }

  lemma AndEven(a: nat, b: nat)
    ensures And(a, 2 * b) == 2 * And(a / 2, b)
  {
    if a > 0 && b > 0 { assert (2 * b) / 2 == b && (2 * b) % 2 == 0; }
  }

  /** `x & (2^k - 1)` is the remainder: the ring-index idiom. */
  lemma {:induction false} AndLowMask(x: nat, k: nat)
    ensures And(x, Pow2(k) - 1) == x % Pow2(k)
    decreases k
  {
    if k == 0 {
      assert Pow2(0) == 1;
    } else {
      var p := Pow2(k - 1);
      AndLowMask(x / 2, k - 1);
      calc {
        And(x, Pow2(k) - 1);
      == { assert Pow2(k) - 1 == 2 * (p - 1) + 1; AndOdd(x, p - 1); }
        2 * And(x / 2, p - 1) + x % 2;
      ==
        2 * ((x / 2) % p) + x % 2;
      == { ModHalf(x, p); }
        x % (2 * p);
      }
    }
  }

  /** `x & -2^k` in a `w`-bit word rounds down to a multiple of `2^k`: the alignment idiom. */
  lemma {:induction false} AndHighMask(x: nat, k: nat, w: nat)
    requires k < w && x < Pow2(w)
    ensures And(x, NegPow2(k, w)) == x - x % Pow2(k)
    decreases w
  {
    Pow2Monotone(k, w);
    if k == 0 {
      assert Pow2(0) == 1;
      AndLowMask(x, w);
      SmallMod(x, Pow2(w));
    } else {
      Pow2Monotone(k - 1, w - 1);
      var m, p := NegPow2(k - 1, w - 1), Pow2(k - 1);
      AndHighMask(x / 2, k - 1, w - 1);
      calc {
        And(x, NegPow2(k, w));
      == { assert NegPow2(k, w) == 2 * m; AndEven(x, m); }
        2 * And(x / 2, m);
      ==
        2 * (x / 2 - (x / 2) % p);
      == { ModHalf(x, p); }
        x - x % (2 * p);
      }
    }
  }

  lemma SmallMod(x: nat, d: nat)
    requires x < d
    ensures x % d == x
  {}

  lemma SmallPowers()
    ensures Pow2(4) == 16 && Pow2(8) == 256 && Pow2(12) == 4096 && Pow2(16) == 65536
  {
    assert Pow2(4) == 16;
    hide Pow2;
    Pow2Sum(4, 4);
    Pow2Sum(4, 8);
    Pow2Sum(8, 8);
  }

  lemma WordPowers()
    ensures Pow2(32) == 0x1_0000_0000 && Pow2(64) == 0x1_0000_0000_0000_0000
  {
    hide Pow2;
    SmallPowers();
    Pow2Sum(16, 16);
    Pow2Sum(32, 32);
  }
}
