/**
 The cache of movable windows onto device memory. Reads and writes through it give what uncached
 access gives; addresses are 64-bit and wrap.
 */
module AreaCache {
  import opened Basics
  import opened Bits

  /** An address of a target inside the device. */
  datatype Place = Place(id: int, addr: nat)

  /** A cached area: the target and start it is recorded for, its size as a power of two, and where
      the area's window really lies, if it is set up. */
  datatype Entry = Entry(id: int, addr: nat, order: nat, window: Option<Place>)

  type Device = map<Place, int>

  function Wrap(x: int): (r: nat)
    ensures r < U64
  {
    x % U64
  }

  function Size(e: Entry): nat {
    Pow2(e.order)
  }

  /** round_down for a power of two. */
  function RoundDown(x: nat, order: nat): nat
    requires order < 64
  {
    And(x, NegPow2(order, 64))
  }

  // ----- arithmetic

  lemma Multiple(k: nat, d: nat)
    requires d > 0
    ensures (d * k) % d == 0
  {
    DivModUnique(d * k, d, k, 0);
  }

  /** The aligned window around an address lies inside the address space. */
  lemma WindowAround(x: nat, order: nat)
    requires x < U64 && order < 64
    ensures RoundDown(x, order) == x - x % Pow2(order)
    ensures RoundDown(x, order) % Pow2(order) == 0
    ensures RoundDown(x, order) <= x < RoundDown(x, order) + Pow2(order) <= U64
  {
    WordPowers();
    AndHighMask(x, order, 64);
    Pow2Sum(order, 64 - order);
    hide Pow2, And, NegPow2;
    RoundedPart(x, Pow2(order), Pow2(64 - order));
  }

  lemma RoundedPart(x: nat, d: nat, m: nat)
    requires d > 0 && x < d * m
    ensures x % d <= x && (x - x % d) % d == 0 && x - x % d + d <= d * m
  {
    var q := x / d;
    assert x == d * q + x % d;
    Multiple(q, d);
    NextMultiple(d, q, m, x % d);
  }

  lemma NextMultiple(d: nat, q: nat, m: nat, r: nat)
    requires d > 0 && r < d && d * q + r < d * m
    ensures d * q + d <= d * m
  {
    if q < m { MulMonotone(d, q + 1, m); } else { MulMonotone(d, m, q); }
  }

  // ----- hits and fits

  predicate Hit(e: Entry, id: int, addr: nat, len: nat) {
    id == e.id && addr >= e.addr && Wrap(addr + len) <= Wrap(e.addr + Size(e))
  }

  predicate Inside(e: Entry, addr: nat, len: nat) {
    e.addr <= addr && addr + len <= e.addr + Size(e)
  }

  predicate Fits(e: Entry, addr: nat, len: nat)
    requires e.order < 64
  {
    RoundDown(Wrap(addr + len - 1), e.order) == RoundDown(addr, e.order)
  }

  predicate Aligned(e: Entry) {
    e.order < 64 && e.addr % Size(e) == 0 && e.addr + Size(e) <= U64
  }

  /** The entry's record is true of its area. */
  predicate Sound(e: Entry) {
    Aligned(e) && (e.id != 0 ==> e.window == Some(Place(e.id, e.addr)))
  }

  /** Up to the top of the address space all is well; there only a window that ends there too is right. */
  predicate NoWrap(e: Entry, addr: nat, len: nat) {
    addr + len < U64 || (addr + len == U64 && e.addr + Size(e) == U64)
  }

  lemma HitInside(e: Entry, id: int, addr: nat, len: nat)
    requires Aligned(e) && Hit(e, id, addr, len) && addr < U64 && 0 < len < U64
    ensures Inside(e, addr, len) <==> NoWrap(e, addr, len)
  {}

  lemma FitInside(e: Entry, addr: nat, len: nat)
    requires e.order < 64 && Fits(e, addr, len) && addr < U64 && 0 < len < U64
    ensures var e' := e.(addr := RoundDown(addr, e.order)); Aligned(e') && (Inside(e', addr, len) <==> NoWrap(e', addr, len))
  {
    hide RoundDown, Pow2;
    WindowAround(addr, e.order);
    WindowAround(Wrap(addr + len - 1), e.order);
  }

  /** A range that wraps past the top can hit a window it is not inside of. */
  lemma WrappedHit()
    ensures var e := Entry(7, 0, 12, Some(Place(7, 0)));
            Sound(e) && Hit(e, 7, U64 - 4, 4) && !Inside(e, U64 - 4, 4)
  {
    SmallPowers();
  }
}
