/**
 Size classes of the allocator: the 60-entry bin table, `bin_index` and `bin_index_up`.
 Sizes are 64-bit machine words (size_t on an LP64 target).
 */
module SizeClass {

  const WORD := 0x1_0000_0000_0000_0000
  const SIZE_ALIGN := 32
  const OVERHEAD := 16
  const MMAP_THRESHOLD := 0x1c00 * SIZE_ALIGN

  const TAB_0: seq<int> := [32,33,34,35,36,36,37,37,38,38,39,39]
  const TAB_1: seq<int> := [40,40,40,40,41,41,41,41,42,42,42,42,43,43,43,43]
  const TAB_2: seq<int> := [44,44,44,44,44,44,44,44,45,45,45,45,45,45,45,45]
  const TAB_3: seq<int> := [46,46,46,46,46,46,46,46,47,47,47,47,47,47,47,47]
  const BIN_TAB: seq<int> := TAB_0 + TAB_1 + TAB_2 + TAB_3

  /** `x / SIZE_ALIGN - 1` in unsigned arithmetic: a size below one unit wraps to the largest word. */
  function Units(x: nat): (u: nat)
    requires x < WORD
    ensures SIZE_ALIGN <= x ==> u == x / SIZE_ALIGN - 1
    ensures x < SIZE_ALIGN ==> u == WORD - 1
  {
    (x / SIZE_ALIGN - 1) % WORD
  }

  function BinIndex(x: nat): int
    requires x < WORD
  {
    var u := Units(x);
    if u <= 32 then u
    else if u < 512 then BIN_TAB[u / 8 - 4]
    else if u > 0x1c00 then 63
    else BIN_TAB[u / 128 - 4] + 16
  }

  function BinIndexUp(x: nat): int
    requires SIZE_ALIGN <= x <= MMAP_THRESHOLD
  {
    var u := Units(x);
    if u <= 32 then u
    else
      var v := u - 1;
      if v < 512 then BIN_TAB[v / 8 - 4] + 1
      else BIN_TAB[v / 128 - 4] + 17
  }

  /** The arithmetic behind the table: four runs whose steps are 1, 2, 4 and 8 entries wide. */
  function Tab(k: int): int {
    if k < 4 then 32 + k
    else if k < 12 then 34 + k / 2
    else if k < 28 then 37 + k / 4
    else 40 + (k + 4) / 8
  }

  lemma TableIsTab(k: nat)
    requires k < 60
    ensures BIN_TAB[k] == Tab(k)
  {
    match k
    case 0 => case 1 => case 2 => case 3 => case 4 => case 5 => case 6 => case 7 => case 8 => case 9 =>
    case 10 => case 11 => case 12 => case 13 => case 14 => case 15 => case 16 => case 17 => case 18 => case 19 =>
    case 20 => case 21 => case 22 => case 23 => case 24 => case 25 => case 26 => case 27 => case 28 => case 29 =>
    case 30 => case 31 => case 32 => case 33 => case 34 => case 35 => case 36 => case 37 => case 38 => case 39 =>
    case 40 => case 41 => case 42 => case 43 => case 44 => case 45 => case 46 => case 47 => case 48 => case 49 =>
    case 50 => case 51 => case 52 => case 53 => case 54 => case 55 => case 56 => case 57 => case 58 => case 59 =>
  }

  /** `bin_index` by arithmetic alone, as a function of the number of units. */
  function Class(u: nat): int {
    if u <= 32 then u
    else if u < 512 then Tab(u / 8 - 4)
    else if u > 0x1c00 then 63
    else Tab(u / 128 - 4) + 16
  }

  lemma ClassIsBinIndex(x: nat)
    requires x < WORD
    ensures BinIndex(x) == Class(Units(x))
  {
    var u := Units(x);
    if 32 < u < 512 { TableIsTab(u / 8 - 4); }
    if 512 <= u <= 0x1c00 { TableIsTab(u / 128 - 4); }
  }

  lemma TabMonotone(j: nat, k: nat)
    requires j <= k < 60
    ensures 32 <= Tab(j) <= Tab(k) <= 47
  {}

  lemma ClassMonotone(u: nat, v: nat)
    requires u <= v
    ensures 0 <= Class(u) <= Class(v) <= 63
  {
    hide Tab;
    TabAt(u);
    TabAt(v);
    if 32 < u && v < 512 { TabMonotone(u / 8 - 4, v / 8 - 4); }
    if 512 <= u && v <= 0x1c00 { TabMonotone(u / 128 - 4, v / 128 - 4); }
  }

  /** Where the table is consulted the class is in the range the table covers. */
  lemma TabAt(u: nat)
    ensures 32 < u < 512 ==> 32 <= Tab(u / 8 - 4) <= 47
    ensures 512 <= u <= 0x1c00 ==> 32 <= Tab(u / 128 - 4) <= 47
    ensures 0 <= Class(u) <= 63 && (512 <= u ==> 48 <= Class(u)) && (32 < u ==> 32 <= Class(u)) && (u < 512 ==> Class(u) <= 47)
  {
    if 32 < u < 512 { TabMonotone(u / 8 - 4, u / 8 - 4); }
    if 512 <= u <= 0x1c00 { TabMonotone(u / 128 - 4, u / 128 - 4); }
  }

  /** Rounding up: the class above the one that still contains the next smaller size. */
  lemma UpIsNextClass(x: nat)
    requires SIZE_ALIGN <= x <= MMAP_THRESHOLD
    ensures BinIndexUp(x) == if Units(x) <= 32 then Class(Units(x)) else Class(Units(x) - 1) + 1
    ensures 0 <= BinIndexUp(x) <= 63
  {
    var u := Units(x);
    if 32 < u && u - 1 < 512 { TableIsTab((u - 1) / 8 - 4); }
    if 513 <= u { TableIsTab((u - 1) / 128 - 4); }
  }

  /** `bin_index` is monotone on real sizes and always names one of the 64 bins. */
  lemma BinIndexMonotone(x: nat, y: nat)
    requires SIZE_ALIGN <= x <= y < WORD
    ensures 0 <= BinIndex(x) <= BinIndex(y) <= 63
  {
    ClassIsBinIndex(x);
    ClassIsBinIndex(y);
    ClassMonotone(Units(x), Units(y));
  }

  lemma BinIndexRange(x: nat)
    requires x < WORD
    ensures 0 <= BinIndex(x) <= 63
  {
    ClassIsBinIndex(x);
    ClassMonotone(Units(x), Units(x));
  }

  /**
   Sufficiency: a chunk whose bin is at or above the rounded-up bin of a request is large enough,
   so the first non-empty bin found by malloc always satisfies the request.
   */
  lemma BinSuffices(c: nat, n: nat)
    requires SIZE_ALIGN <= c < WORD && c % SIZE_ALIGN == 0
    requires SIZE_ALIGN <= n <= MMAP_THRESHOLD && n % SIZE_ALIGN == 0
    requires BinIndex(c) >= BinIndexUp(n)
    ensures c >= n
  {
    ClassIsBinIndex(c);
    UpIsNextClass(n);
    if c < n {
      if Units(n) > 32 { ClassMonotone(Units(c), Units(n) - 1); }
    }
  }

  /** Rounding is tight: the bin of a request itself is at most one below its rounded-up bin. */
  lemma UpIsTight(n: nat)
    requires SIZE_ALIGN <= n <= MMAP_THRESHOLD && n % SIZE_ALIGN == 0
    ensures BinIndex(n) <= BinIndexUp(n) <= BinIndex(n) + 1
  {
    ClassIsBinIndex(n);
    UpIsNextClass(n);
    if Units(n) > 32 { ClassMonotone(Units(n) - 1, Units(n)); }
  }
}
