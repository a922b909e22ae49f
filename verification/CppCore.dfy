/**
 Access to the device through the area cache, and the loops that cut long accesses into pieces
 that stay inside an aligned safe window.
 */
module CppCore {
  import opened Basics
  import opened Bits
  import opened AreaCache

  /** How nfp_target_cpp maps a destination and address; it may fail. */
  type Target = (int, nat) -> Option<Place>

  ghost predicate Sane(target: Target) {
    forall dest, addr {:trigger target(dest, addr)} :: target(dest, addr).Some? ==> target(dest, addr).value.id != 0 && target(dest, addr).value.addr < U64
  }

  const ENoMem: int := -12

  // ----- device memory

  function Peek(device: Device, p: Place): int {
    if p in device then device[p] else 0
  }

  function Load(device: Device, p: Place, n: nat): (data: seq<int>)
    ensures |data| == n
  {
    seq(n, i requires 0 <= i < n => Peek(device, Place(p.id, p.addr + i)))
  }

  function Store(device: Device, p: Place, data: seq<int>): Device {
    if data == [] then device
    else Store(device, p, data[..|data| - 1])[Place(p.id, p.addr + |data| - 1) := data[|data| - 1]]
  }

  /** A store changes exactly the places it covers. */
  lemma {:induction false} StoreMeaning(device: Device, p: Place, data: seq<int>, q: Place)
    ensures Peek(Store(device, p, data), q) ==
            if q.id == p.id && p.addr <= q.addr < p.addr + |data| then data[q.addr - p.addr] else Peek(device, q)
  {
    if data != [] { StoreMeaning(device, p, data[..|data| - 1], q); }
  }

  /** Reading back what was written gives it. */
  lemma LoadStore(device: Device, p: Place, data: seq<int>)
    ensures Load(Store(device, p, data), p, |data|) == data
  {
    forall i | 0 <= i < |data| ensures Load(Store(device, p, data), p, |data|)[i] == data[i] {
      StoreMeaning(device, p, data, Place(p.id, p.addr + i));
    }
  }

  // ----- uncached access

  function DirectRead(device: Device, target: Target, dest: int, addr: nat, n: nat): Option<seq<int>> {
    match target(dest, addr)
    case None => None
    case Some(p) => Some(Load(device, p, n))
  }

  function DirectWrite(device: Device, target: Target, dest: int, addr: nat, data: seq<int>): Option<Device> {
    match target(dest, addr)
    case None => None
    case Some(p) => Some(Store(device, p, data))
  }

  // ----- the cached device

  /** What a lookup does to the cache. */
  datatype Look = Refused | Found(i: nat) | Replace

  predicate Sizes(cache: seq<Entry>) {
    forall i :: 0 <= i < |cache| ==> cache[i].order < 64
  }

  /** Where the first hit is, if any. */
  function FirstHit(cache: seq<Entry>, p: Place, len: nat): (i: nat)
    ensures i <= |cache| && (i < |cache| ==> Hit(cache[i], p.id, p.addr, len))
    ensures forall k :: 0 <= k < i ==> !Hit(cache[k], p.id, p.addr, len)
  {
    if cache == [] || Hit(cache[0], p.id, p.addr, len) then 0 else 1 + FirstHit(cache[1..], p, len)
  }

  function Lookup(cache: seq<Entry>, target: Target, dest: int, addr: nat, len: nat): Look
    requires Sizes(cache)
  {
    if len == 0 || dest == 0 || target(dest, addr).None? || cache == [] then Refused
    else
      var p := target(dest, addr).value;
      var i := FirstHit(cache, p, len);
      if i < |cache| then Found(i)
      else if Fits(cache[|cache| - 1], p.addr, len) then Replace else Refused
  }

  /** An entry found holds the range; at the top of the address space the ends of both are taken modulo 2^64. */
  predicate Covers(e: Entry, p: Place, len: nat) {
    && e.id == p.id && e.addr <= p.addr
    && if p.addr + len < U64 then p.addr + len <= e.addr + Size(e) < U64
       else p.addr + len - U64 <= if e.addr + Size(e) < U64 then e.addr + Size(e) else 0
  }

  /** First and last byte of the range lie in one aligned window of the size of e. */
  predicate OneWindow(e: Entry, p: Place, len: nat) {
    0 < len && p.addr / Size(e) == ((p.addr + len - 1) % U64) / Size(e)
  }

  /** What a lookup finds: the first entry that holds the range, or else the last entry if its size will do. */
  ghost predicate LooksFor(cache: seq<Entry>, p: Place, len: nat, look: Look) {
    match look
    case Found(i) => i < |cache| && Covers(cache[i], p, len) && forall k :: 0 <= k < i ==> !Covers(cache[k], p, len)
    case Replace => cache != [] && OneWindow(cache[|cache| - 1], p, len) && forall k :: 0 <= k < |cache| ==> !Covers(cache[k], p, len)
    case Refused => (forall k :: 0 <= k < |cache| ==> !Covers(cache[k], p, len)) && (cache != [] ==> !OneWindow(cache[|cache| - 1], p, len))
  }

  lemma HitCovers(e: Entry, p: Place, len: nat)
    requires Aligned(e) && p.addr < U64 && 0 < len < U64
    ensures Hit(e, p.id, p.addr, len) <==> Covers(e, p, len)
  {
    hide Pow2;
  }

  lemma SameWindow(x: nat, y: nat, d: nat)
    requires d > 0
    ensures x - x % d == y - y % d <==> x / d == y / d
  {
    assert x == d * (x / d) + x % d && y == d * (y / d) + y % d;
    if x / d < y / d { MulMonotone(d, x / d + 1, y / d); }
    if y / d < x / d { MulMonotone(d, y / d + 1, x / d); }
  }

  lemma FitsWindow(e: Entry, p: Place, len: nat)
    requires e.order < 64 && p.addr < U64 && 0 < len < U64
    ensures Fits(e, p.addr, len) <==> OneWindow(e, p, len)
  {
    hide RoundDown, Pow2;
    WindowAround(p.addr, e.order);
    WindowAround(Wrap(p.addr + len - 1), e.order);
    SameWindow(p.addr, Wrap(p.addr + len - 1), Size(e));
  }

  /** A lookup is refused outright without a length, a destination or a mapping. */
  lemma LookupMeans(cache: seq<Entry>, target: Target, dest: int, addr: nat, len: nat)
    requires AllSound(cache) && Sane(target) && len < U64
    ensures Sizes(cache)
    ensures var look := Lookup(cache, target, dest, addr, len);
            if len == 0 || dest == 0 || target(dest, addr).None? then look.Refused? else LooksFor(cache, target(dest, addr).value, len, look)
  {
    SoundSizes(cache);
    if len > 0 && target(dest, addr).Some? {
      var p := target(dest, addr).value;
      forall k | 0 <= k < |cache| ensures Hit(cache[k], p.id, p.addr, len) <==> Covers(cache[k], p, len) { HitCovers(cache[k], p, len); }
      if cache != [] { FitsWindow(cache[|cache| - 1], p, len); }
      hide Hit, Covers, Fits, OneWindow;
    }
  }

  /** The entry that a lookup leads to. */
  function Picked(cache: seq<Entry>, p: Place, look: Look): Entry
    requires Sizes(cache) && cache != [] && (look.Found? ==> look.i < |cache|)
  {
    if look.Found? then cache[look.i] else Moved(cache[|cache| - 1], p)
  }

  /** The entry that the lookup leads to comes first, the others keep their order. */
  function Front(cache: seq<Entry>, p: Place, look: Look): seq<Entry>
    requires Sizes(cache) && cache != [] && (look.Found? ==> look.i < |cache|)
  {
    var i := if look.Found? then look.i else |cache| - 1;
    [Picked(cache, p, look)] + cache[..i] + cache[i + 1..]
  }

  /** The range wraps past the top of the address space and yet hits a window, which does not hold it. */
  predicate Strays(cache: seq<Entry>, target: Target, dest: int, addr: nat, len: nat)
    requires Sizes(cache)
  {
    var look := Lookup(cache, target, dest, addr, len);
    !look.Refused? && !NoWrap(Picked(cache, target(dest, addr).value, look), target(dest, addr).value.addr, len)
  }

  /** A range below the top does not. */
  lemma StraysAtTop(cache: seq<Entry>, target: Target, dest: int, addr: nat, len: nat)
    requires Sizes(cache) && Strays(cache, target, dest, addr, len)
    ensures target(dest, addr).Some? && target(dest, addr).value.addr + len >= U64
  {}

  ghost predicate AllSound(cache: seq<Entry>) {
    forall i :: 0 <= i < |cache| ==> Sound(cache[i])
  }

  class Cpp {
    const target: Target
    const safeOrder: nat
    var cache: seq<Entry>
    var device: Device

    ghost predicate Valid()
      reads this`cache
    {
      AllSound(cache) && Sane(target) && safeOrder < 64
    }

    constructor (target: Target, safeOrder: nat, orders: seq<nat>, device: Device)
      requires Sane(target) && safeOrder < 64 && forall i :: 0 <= i < |orders| ==> orders[i] < 64
      ensures Valid() && this.target == target && this.safeOrder == safeOrder && this.device == device
      ensures cache == seq(|orders|, i requires 0 <= i < |orders| => Entry(0, 0, orders[i], None))
    {
      this.target, this.safeOrder, this.device := target, safeOrder, device;
      cache := seq(|orders|, i requires 0 <= i < |orders| => Entry(0, 0, orders[i], None));
      forall i | 0 <= i < |orders| ensures Aligned(Entry(0, 0, orders[i], None)) { ZeroAligned(orders[i]); }
    }

    /** area_cache_get. A returned entry holds the range, as far as addresses do not wrap; a failing
        area_init or acquire leaves the last entry recorded for a window its area does not show. */
    method Get(dest: int, addr: nat, len: nat, initOk: bool, acquireOk: bool) returns (r: Option<nat>, offset: nat)
      requires Valid() && addr < U64 && len < U64
      modifies this`cache
      ensures |cache| == |old(cache)| && Sizes(old(cache))
      ensures var look := Lookup(old(cache), target, dest, addr, len);
              && (look.Replace? || cache == old(cache))
              && (Valid() <==> !(look.Replace? && !(initOk && acquireOk)))
              && (r.Some? <==> look.Found? || (look.Replace? && initOk && acquireOk))
              && (look.Replace? ==> forall i :: 0 <= i < |cache| - 1 ==> cache[i] == old(cache)[i])
              && (r.Some? ==> r.value == if look.Found? then look.i else |cache| - 1)
              && (r.Some? ==> cache[r.value] == Picked(old(cache), target(dest, addr).value, look))
      ensures r.Some? ==>
                target(dest, addr).Some? && r.value < |cache| &&
                Holds(cache[r.value], target(dest, addr).value, len, offset)
    {
      SoundSizes(cache);
      if len == 0 || dest == 0 { return None, 0; }
      var mapped := target(dest, addr);
      if mapped.None? { return None, 0; }
      if cache == [] { return None, 0; }
      var p := mapped.value;
      hide Pow2, RoundDown;
      var i := 0;
      while i < |cache|
        invariant i <= |cache| && cache == old(cache)
        invariant forall k :: 0 <= k < i ==> !Hit(cache[k], p.id, p.addr, len)
      {
        if Hit(cache[i], p.id, p.addr, len) {
          FirstHitIs(cache, p, len, i);
          HitHolds(cache[i], p, len);
          return Some(i), p.addr - cache[i].addr;
        }
        i := i + 1;
      }
      FirstHitIs(cache, p, len, i);
      var last := |cache| - 1;
      if !Fits(cache[last], p.addr, len) { return None, 0; }
      ReplaceHolds(cache[last], p, len);
      r, offset := Remap(p, initOk, acquireOk);
    }

    /** The last entry is given up and its window moved around the place. */
    method Remap(p: Place, initOk: bool, acquireOk: bool) returns (r: Option<nat>, offset: nat)
      requires Valid() && cache != [] && p.id != 0 && p.addr < U64
      requires var e := cache[|cache| - 1]; e.order < 64 && Sound(Moved(e, p))
      modifies this`cache
      ensures |cache| == |old(cache)| && forall i :: 0 <= i < |cache| - 1 ==> cache[i] == old(cache)[i]
      ensures Valid() <==> initOk && acquireOk
      ensures if initOk && acquireOk then r == Some(|cache| - 1) && cache[|cache| - 1] == Moved(old(cache)[|cache| - 1], p)
                   && offset == p.addr - cache[|cache| - 1].addr
                   && cache[|cache| - 1].addr == p.addr - p.addr % Size(old(cache)[|cache| - 1])
              else r == None
    {
      var last := |cache| - 1;
      var e := cache[last];
      WindowAround(p.addr, e.order);
      hide RoundDown, Pow2;
      if e.id != 0 {
        e := e.(id := 0, addr := 0, window := None);
      }
      e := e.(id := p.id, addr := RoundDown(p.addr, e.order), window := None);
      cache := cache[last := e];
      assert !Sound(cache[last]);
      if !initOk { return None, 0; }
      if !acquireOk { return None, 0; }
      cache := cache[last := e.(window := Some(Place(e.id, e.addr)))];
      r, offset := Some(last), p.addr - e.addr;
    }

    /** area_cache_put: the entry becomes the most recently used. */
    method Put(i: nat)
      requires Valid() && i < |cache|
      modifies this`cache
      ensures Valid() && cache == [old(cache)[i]] + old(cache)[..i] + old(cache)[i + 1..]
    {
      cache := [cache[i]] + cache[..i] + cache[i + 1..];
    }

    /** nfp_cpp_area_read, inside the area's window. */
    method AreaRead(window: Place, ghost size: nat, offset: nat, len: nat) returns (data: seq<int>)
      requires offset + len <= size
      ensures data == Load(device, Place(window.id, window.addr + offset), len)
    {
      data := [];
      var i := 0;
      while i < len
        invariant i <= len && data == Load(device, Place(window.id, window.addr + offset), i)
      {
        data := data + [Peek(device, Place(window.id, window.addr + offset + i))];
        i := i + 1;
      }
    }

    method AreaWrite(window: Place, ghost size: nat, offset: nat, data: seq<int>)
      requires offset + |data| <= size
      modifies this`device
      ensures device == Store(old(device), Place(window.id, window.addr + offset), data)
    {
      var i := 0;
      while i < |data|
        invariant i <= |data| && device == Store(old(device), Place(window.id, window.addr + offset), data[..i])
      {
        assert data[..i + 1][..i] == data[..i];
        device := device[Place(window.id, window.addr + offset + i) := data[i]];
        i := i + 1;
      }
      assert data[..i] == data;
    }

    /** One cached read is one direct read, unless it strays out of the window; what the driver does then
        is not part of this model. */
    method ReadOnce(dest: int, addr: nat, len: nat) returns (data: Option<seq<int>>, stray: bool)
      requires Valid() && addr < U64 && len < U64
      modifies this`cache
      ensures Valid() && Sizes(old(cache)) && stray == Strays(old(cache), target, dest, addr, len)
      ensures var look := Lookup(old(cache), target, dest, addr, len);
              !stray ==> cache == if look.Refused? then old(cache) else Front(old(cache), target(dest, addr).value, look)
      ensures !stray ==> data == DirectRead(device, target, dest, addr, len)
    {
      hide Sound, Lookup, Load, Pow2, Wrap;
      var r, offset := Get(dest, addr, len, true, true);
      stray := false;
      match r {
        case Some(i) =>
          var e := cache[i];
          if offset + len > Size(e) { return None, true; }
          var got := AreaRead(e.window.value, Size(e), offset, len);
          data := Some(got);
          Put(i);
        case None =>
          var p := target(dest, addr);
          if p.None? { return None, false; }
          var got := AreaRead(p.value, len, 0, len);
          data := Some(got);
      }
    }

    method WriteOnce(dest: int, addr: nat, data: seq<int>) returns (ok: bool, stray: bool)
      requires Valid() && addr < U64 && |data| < U64
      modifies this`cache, this`device
      ensures Valid() && Sizes(old(cache)) && stray == Strays(old(cache), target, dest, addr, |data|)
      ensures var look := Lookup(old(cache), target, dest, addr, |data|);
              !stray ==> cache == if look.Refused? then old(cache) else Front(old(cache), target(dest, addr).value, look)
      ensures !stray ==> ok == DirectWrite(old(device), target, dest, addr, data).Some?
      ensures !stray ==> device == if ok then DirectWrite(old(device), target, dest, addr, data).value else old(device)
    {
      hide Sound, Lookup, Store, Pow2, Wrap;
      var r, offset := Get(dest, addr, |data|, true, true);
      stray := false;
      match r {
        case Some(i) =>
          var e := cache[i];
          if offset + |data| > Size(e) { return false, true; }
          AreaWrite(e.window.value, Size(e), offset, data);
          Put(i);
        case None =>
          var p := target(dest, addr);
          if p.None? { return false, false; }
          AreaWrite(p.value, |data|, 0, data);
      }
      ok := true;
    }

    /** nfp_cpp_read: the cached pieces are what uncached access to the same pieces gives. */
    method Read(dest: int, address: nat, length: nat) returns (ret: int, data: seq<int>, stray: bool)
      requires Valid() && address < U64 && length < U64
      modifies this`cache
      ensures Valid() && (stray ==> AtTop(target, dest, address, length, safeOrder))
      ensures !stray ==>
                match ReadAll(device, target, dest, address, length, safeOrder)
                case Some(all) => ret == length && data == all
                case None => ret == ENoMem
    {
      hide Sound, Pow2, DirectRead, Gap, ReadAll, Piece, AtTop, Strays, Sane, Sizes, Lookup, Front;
      data, stray := [], false;
      var offset := 0;
      assert Wrap(address + offset) == address;
      JoinNil(ReadAll(device, target, dest, address, length, safeOrder));
      while offset < length
        invariant offset <= length && Valid() && !stray
        invariant ReadAll(device, target, dest, address, length, safeOrder) ==
                  Join(Some(data), ReadAll(device, target, dest, Wrap(address + offset), length - offset, safeOrder))
        invariant AtTop(target, dest, Wrap(address + offset), length - offset, safeOrder) ==> AtTop(target, dest, address, length, safeOrder)
      {
        var addr := Wrap(address + offset);
        var n := Min(length - offset, Gap(addr, safeOrder));
        PieceIs(addr, length - offset, safeOrder);
        assert Wrap(addr + n) == Wrap(address + (offset + n));
        ReadStep(device, target, dest, addr, length - offset, safeOrder, data);
        AtTopStep(target, dest, addr, length - offset, safeOrder);
        ghost var before := cache;
        var got, beyond := ReadOnce(dest, addr, n);
        if beyond {
          StraysAtTop(before, target, dest, addr, n);
          return 0, data, true;
        }
        if got.None? { return ENoMem, data, false; }
        data := data + got.value;
        offset := offset + n;
      }
      ReadNone(device, target, dest, Wrap(address + offset), safeOrder);
      JoinNil(Some(data));
      ret := length;
    }

    /** nfp_cpp_write; after a failure the pieces before it have been written. */
    method Write(dest: int, address: nat, data: seq<int>) returns (ret: int, stray: bool)
      requires Valid() && address < U64 && |data| < U64
      modifies this`cache, this`device
      ensures Valid() && (stray ==> AtTop(target, dest, address, |data|, safeOrder))
      ensures !stray ==>
                var w := WriteAll(old(device), target, dest, address, data, safeOrder);
                device == w.device && ret == if w.ok then |data| else ENoMem
    {
      hide Sound, Pow2, DirectWrite, Gap, WriteAll, Piece, AtTop, Strays, Sane, Sizes, Lookup, Front;
      var offset := 0;
      stray := false;
      assert Wrap(address + offset) == address;
      assert data[0..] == data;
      while offset < |data|
        invariant offset <= |data| && Valid() && !stray
        invariant WriteAll(old(device), target, dest, address, data, safeOrder) ==
                  WriteAll(device, target, dest, Wrap(address + offset), data[offset..], safeOrder)
        invariant AtTop(target, dest, Wrap(address + offset), |data| - offset, safeOrder) ==> AtTop(target, dest, address, |data|, safeOrder)
      {
        var addr := Wrap(address + offset);
        var n := Min(|data| - offset, Gap(addr, safeOrder));
        PieceIs(addr, |data| - offset, safeOrder);
        assert Wrap(addr + n) == Wrap(address + (offset + n));
        assert data[offset..][..n] == data[offset..offset + n] && data[offset..][n..] == data[offset + n..];
        WriteStep(device, target, dest, addr, data[offset..], safeOrder);
        AtTopStep(target, dest, addr, |data| - offset, safeOrder);
        ghost var before := cache;
        var ok, beyond := WriteOnce(dest, addr, data[offset..offset + n]);
        if beyond {
          StraysAtTop(before, target, dest, addr, n);
          return 0, true;
        }
        if !ok { return ENoMem, false; }
        offset := offset + n;
      }
      assert data[offset..] == [];
      WriteNone(device, target, dest, Wrap(address + offset), safeOrder);
      ret := |data|;
    }
  }

  // ----- pieces

  /** What is left of the safe window around an address, as the loops compute it. */
  function Gap(addr: nat, order: nat): nat
    requires order < 64
  {
    Wrap(RoundDown(Wrap(Wrap(addr + 1) + Pow2(order) - 1), order) - addr)
  }

  lemma GapMeaning(addr: nat, order: nat)
    requires addr < U64 && order < 64
    ensures Gap(addr, order) == Pow2(order) - addr % Pow2(order)
  {
    hide Pow2, RoundDown, Wrap;
    WordPowers();
    Pow2Monotone(order, 64);
    Pow2Sum(order, 64 - order);
    WindowAround(Wrap(addr + Pow2(order)), order);
    GapArithmetic(addr, Pow2(order), Pow2(64 - order));
  }

  lemma GapArithmetic(addr: nat, d: nat, m: nat)
    requires d > 0 && d * m == U64 && addr < U64 && d < U64
    ensures Wrap(Wrap(addr + 1) + d - 1) == Wrap(addr + d)
    ensures Wrap(Wrap(addr + d) - Wrap(addr + d) % d - addr) == d - addr % d
  {
    hide Wrap;
    SameRest(addr, d, m);
    GapWrap(addr, d, addr % d);
  }

  lemma GapWrap(addr: nat, d: nat, r: nat)
    requires addr < U64 && r < d < U64
    ensures Wrap(Wrap(addr + 1) + d - 1) == Wrap(addr + d)
    ensures Wrap(Wrap(addr + d) - r - addr) == d - r
  {}

  lemma SameRest(a: nat, d: nat, m: nat)
    requires d > 0 && d * m == U64 && a < U64 && d < U64
    ensures Wrap(a + d) % d == a % d
  {
    var q, r := a / d, a % d;
    assert a == d * q + r;
    if a + d < U64 {
      assert a + d == d * (q + 1) + r;
      DivModUnique(a + d, d, q + 1, r);
    } else {
      assert (a + d) % U64 == a + d - U64;
      assert a + d - U64 == d * (q + 1 - m) + r by { Factor(d, q, m, r); }
      if q + 1 < m {
        MulMonotone(d, q + 2, m);
      } else {
        DivModUnique(a + d - U64, d, q + 1 - m, r);
      }
    }
  }

  lemma Factor(d: int, q: int, m: int, r: int)
    ensures d * q + r + d - d * m == d * (q + 1 - m) + r
  {}

  /** The first piece of an access: never empty, and never across a safe boundary. */
  function Piece(addr: nat, len: nat, order: nat): (n: nat)
    ensures len > 0 ==> 0 < n <= len
    ensures n <= Pow2(order)
  {
    Min(len, Pow2(order) - addr % Pow2(order))
  }

  /** The uncached access, piece by piece. */
  function ReadAll(device: Device, target: Target, dest: int, addr: nat, len: nat, order: nat): Option<seq<int>>
    decreases len
  {
    if len == 0 then Some([])
    else
      var n := Piece(addr, len, order);
      Join(DirectRead(device, target, dest, addr, n), ReadAll(device, target, dest, Wrap(addr + n), len - n, order))
  }

  function Join(a: Option<seq<int>>, b: Option<seq<int>>): Option<seq<int>> {
    if a.Some? && b.Some? then Some(a.value + b.value) else None
  }

  datatype Written = Written(ok: bool, device: Device)

  function WriteAll(device: Device, target: Target, dest: int, addr: nat, data: seq<int>, order: nat): Written
    decreases |data|
  {
    if data == [] then Written(true, device)
    else
      var n := Piece(addr, |data|, order);
      match DirectWrite(device, target, dest, addr, data[..n])
      case None => Written(false, device)
      case Some(d) => WriteAll(d, target, dest, Wrap(addr + n), data[n..], order)
  }

  /** Some piece of the access is mapped to a range that reaches the top of the address space. */
  predicate AtTop(target: Target, dest: int, addr: nat, len: nat, order: nat)
    decreases len
  {
    var n := Piece(addr, len, order);
    len > 0 && ((target(dest, addr).Some? && target(dest, addr).value.addr + n >= U64) || AtTop(target, dest, Wrap(addr + n), len - n, order))
  }

  lemma AtTopStep(target: Target, dest: int, addr: nat, len: nat, order: nat)
    requires len > 0
    ensures var n := Piece(addr, len, order);
            AtTop(target, dest, addr, len, order) <==>
            (target(dest, addr).Some? && target(dest, addr).value.addr + n >= U64) || AtTop(target, dest, Wrap(addr + n), len - n, order)
  {
    hide Piece, Wrap;
  }

  /** The mapping shifts a whole safe window at once. */
  ghost predicate Uniform(target: Target, dest: int, order: nat) {
    forall a, k :: Shifts(target, dest, order, a, k)
  }

  predicate Shifts(target: Target, dest: int, order: nat, a: nat, k: nat) {
    k < Pow2(order) - a % Pow2(order) && target(dest, a).Some? ==>
      target(dest, Wrap(a + k)) == Some(Place(target(dest, a).value.id, target(dest, a).value.addr + k))
  }

  lemma ReadStep(device: Device, target: Target, dest: int, addr: nat, len: nat, order: nat, done: seq<int>)
    requires len > 0
    ensures var n := Piece(addr, len, order);
            var got, rest := DirectRead(device, target, dest, addr, n), ReadAll(device, target, dest, Wrap(addr + n), len - n, order);
            Join(Some(done), ReadAll(device, target, dest, addr, len, order)) == if got.None? then None else Join(Some(done + got.value), rest)
  {
    hide Piece, DirectRead;
    var n := Piece(addr, len, order);
    var got, rest := DirectRead(device, target, dest, addr, n), ReadAll(device, target, dest, Wrap(addr + n), len - n, order);
    assert ReadAll(device, target, dest, addr, len, order) == Join(got, rest);
    hide ReadAll;
    if got.Some? && rest.Some? { assert done + (got.value + rest.value) == (done + got.value) + rest.value; }
  }

  lemma WriteNone(device: Device, target: Target, dest: int, addr: nat, order: nat)
    ensures WriteAll(device, target, dest, addr, [], order) == Written(true, device)
  {}

  lemma PieceIs(addr: nat, len: nat, order: nat)
    requires addr < U64 && order < 64
    ensures Piece(addr, len, order) == Min(len, Gap(addr, order)) && Pow2(order) < U64
  {
    hide Pow2, Gap;
    GapMeaning(addr, order);
    Pow2Monotone(order, 64);
    WordPowers();
  }

  lemma JoinNil(x: Option<seq<int>>)
    ensures Join(Some([]), x) == x && Join(x, Some([])) == x
  {
    if x.Some? { assert [] + x.value == x.value && x.value + [] == x.value; }
  }

  lemma WriteStep(device: Device, target: Target, dest: int, addr: nat, data: seq<int>, order: nat)
    requires data != []
    ensures var n := Piece(addr, |data|, order);
            var got := DirectWrite(device, target, dest, addr, data[..n]);
            WriteAll(device, target, dest, addr, data, order) ==
            if got.None? then Written(false, device) else WriteAll(got.value, target, dest, Wrap(addr + n), data[n..], order)
  {
    hide DirectWrite;
  }

  /** Where the i-th byte of an access goes: as far into its piece as the piece's start is mapped to. */
  function PlaceOf(target: Target, dest: int, addr: nat, len: nat, order: nat, i: nat): Option<Place>
    requires i < len
    decreases len
  {
    var n := Piece(addr, len, order);
    if i >= n then PlaceOf(target, dest, Wrap(addr + n), len - n, order, i - n)
    else match target(dest, addr)
      case None => None
      case Some(p) => Some(Place(p.id, p.addr + i))
  }

  lemma PlaceStep(target: Target, dest: int, addr: nat, len: nat, order: nat, i: nat)
    requires i < len
    ensures var n := Piece(addr, len, order);
            && (i >= n ==> PlaceOf(target, dest, addr, len, order, i) == PlaceOf(target, dest, Wrap(addr + n), len - n, order, i - n))
            && (i < n && target(dest, addr).None? ==> PlaceOf(target, dest, addr, len, order, i).None?)
            && (i < n && target(dest, addr).Some? ==>
                  PlaceOf(target, dest, addr, len, order, i) == Some(Place(target(dest, addr).value.id, target(dest, addr).value.addr + i)))
  {
    hide Piece, Wrap;
  }

  ghost predicate AllMapped(target: Target, dest: int, addr: nat, len: nat, order: nat) {
    forall i :: 0 <= i < len ==> PlaceOf(target, dest, addr, len, order, i).Some?
  }

  lemma AllMappedStep(target: Target, dest: int, addr: nat, len: nat, order: nat)
    requires len > 0
    ensures var n := Piece(addr, len, order);
            AllMapped(target, dest, addr, len, order) <==> target(dest, addr).Some? && AllMapped(target, dest, Wrap(addr + n), len - n, order)
  {
    hide Piece, Wrap;
    var n := Piece(addr, len, order);
    var a, m := Wrap(addr + n), len - n;
    if AllMapped(target, dest, addr, len, order) {
      assert PlaceOf(target, dest, addr, len, order, 0).Some?;
      forall i | 0 <= i < m ensures PlaceOf(target, dest, a, m, order, i).Some? { assert PlaceOf(target, dest, addr, len, order, n + i).Some?; }
    }
    if target(dest, addr).Some? && AllMapped(target, dest, a, m, order) {
      forall i | 0 <= i < len ensures PlaceOf(target, dest, addr, len, order, i).Some? {
        if i >= n { assert PlaceOf(target, dest, a, m, order, i - n).Some?; }
      }
    }
  }

  /** A read succeeds exactly when all its bytes are mapped. */
  lemma {:induction false} ReadSucceeds(device: Device, target: Target, dest: int, addr: nat, len: nat, order: nat)
    ensures ReadAll(device, target, dest, addr, len, order).Some? <==> AllMapped(target, dest, addr, len, order)
    ensures AllMapped(target, dest, addr, len, order) ==> |ReadAll(device, target, dest, addr, len, order).value| == len
    decreases len
  {
    if len > 0 {
      hide Piece, Wrap, AllMapped, PlaceOf;
      AllMappedStep(target, dest, addr, len, order);
      var n := Piece(addr, len, order);
      ReadSucceeds(device, target, dest, Wrap(addr + n), len - n, order);
    }
  }

  /** The i-th byte read is the one at its place. */
  lemma {:induction false} ReadAllPlaces(device: Device, target: Target, dest: int, addr: nat, len: nat, order: nat, i: nat)
    requires i < len && AllMapped(target, dest, addr, len, order)
    ensures var r := ReadAll(device, target, dest, addr, len, order);
            r.Some? && |r.value| == len && r.value[i] == Peek(device, PlaceOf(target, dest, addr, len, order, i).value)
    decreases len
  {
    hide Piece, Wrap, AllMapped;
    var n := Piece(addr, len, order);
    ReadSucceeds(device, target, dest, addr, len, order);
    AllMappedStep(target, dest, addr, len, order);
    var got, rest := DirectRead(device, target, dest, addr, n), ReadAll(device, target, dest, Wrap(addr + n), len - n, order);
    assert ReadAll(device, target, dest, addr, len, order) == Some(got.value + rest.value);
    if i >= n { ReadAllPlaces(device, target, dest, Wrap(addr + n), len - n, order, i - n); }
  }

  /** Where the mapping shifts whole safe windows, the place of the i-th byte is that of address + i. */
  lemma {:induction false} UniformPlace(target: Target, dest: int, addr: nat, len: nat, order: nat, i: nat)
    requires addr < U64 && i < len && Uniform(target, dest, order) && PlaceOf(target, dest, addr, len, order, i).Some?
    ensures PlaceOf(target, dest, addr, len, order, i) == target(dest, Wrap(addr + i))
    decreases len
  {
    hide Pow2, Uniform, Wrap;
    var n := Piece(addr, len, order);
    if i >= n {
      WrapTwice(addr, n, i - n);
      UniformPlace(target, dest, Wrap(addr + n), len - n, order, i - n);
    } else {
      UniformShifts(target, dest, order, addr, i);
    }
  }

  /** How far byte i is into its piece: back to the last safe boundary, or to the address if that comes later. */
  function Into(addr: nat, i: nat, order: nat): (k: nat)
    ensures k <= i
  {
    Min(i, (addr + i) % Pow2(order))
  }

  lemma ModSumSmall(a: nat, b: nat, d: nat)
    requires d > 0 && a % d + b < d
    ensures (a + b) % d == a % d + b
  {
    var q, r := a / d, a % d;
    assert a == d * q + r;
    DivModUnique(a + b, d, q, r + b);
  }

  lemma ModSumMultiple(a: nat, b: nat, d: nat)
    requires d > 0 && a % d == 0
    ensures (a + b) % d == b % d
  {
    var q, q', r := a / d, b / d, b % d;
    assert a == d * q && b == d * q' + r;
    Distribute(d, q, q');
    DivModUnique(a + b, d, q + q', r);
  }

  lemma ModSum(a: nat, b: nat, d: nat)
    requires d > 0
    ensures a % d + b < d ==> (a + b) % d == a % d + b
    ensures a % d == 0 ==> (a + b) % d == b % d
  {
    if a % d + b < d { ModSumSmall(a, b, d); }
    if a % d == 0 { ModSumMultiple(a, b, d); }
  }

  lemma NextBoundary(addr: nat, d: nat)
    requires d > 0
    ensures (addr + (d - addr % d)) % d == 0
  {
    assert addr == d * (addr / d) + addr % d;
    Distribute(d, addr / d, 1);
    DivModUnique(addr + (d - addr % d), d, addr / d + 1, 0);
  }

  lemma WrapRest(x: nat, d: nat, m: nat)
    requires d > 0 && d * m == U64 && x < 2 * U64
    ensures Wrap(x) % d == x % d
  {
    if x >= U64 {
      var y := x - U64;
      var q, r := y / d, y % d;
      assert Wrap(x) == y && y == d * q + r;
      Distribute(d, q, m);
      DivModUnique(x, d, q + m, r);
    }
  }

  lemma WrapMod(x: nat, order: nat)
    requires order < 64 && x < 2 * U64
    ensures Wrap(x) % Pow2(order) == x % Pow2(order)
  {
    hide Pow2, Wrap;
    WordPowers();
    Pow2Sum(order, 64 - order);
    WrapRest(x, Pow2(order), Pow2(64 - order));
  }

  lemma IntoNext(addr: nat, i: nat, order: nat)
    requires addr < U64 && order < 64 && i >= Pow2(order) - addr % Pow2(order)
    ensures var n := Pow2(order) - addr % Pow2(order); Into(Wrap(addr + n), i - n, order) == Into(addr, i, order) <= i - n
  {
    hide Pow2;
    var d := Pow2(order);
    var n := d - addr % d;
    WordPowers();
    Pow2Monotone(order, 64);
    NextBoundary(addr, d);
    WrapMod(addr + n, order);
    hide Wrap;
    ModSum(addr + n, i - n, d);
    ModSum(Wrap(addr + n), i - n, d);
    assert addr + n + (i - n) == addr + i;
  }

  lemma IntoFirst(addr: nat, i: nat, order: nat)
    requires i < Pow2(order) - addr % Pow2(order)
    ensures Into(addr, i, order) == i
  {
    hide Pow2;
    ModSum(addr, i, Pow2(order));
  }

  lemma PieceCases(addr: nat, len: nat, order: nat, i: nat)
    requires i < len
    ensures i < Piece(addr, len, order) ==> i < Pow2(order) - addr % Pow2(order)
    ensures i >= Piece(addr, len, order) ==> Piece(addr, len, order) == Pow2(order) - addr % Pow2(order)
  {
    hide Pow2;
  }

  /** The i-th byte of an access goes as far past the place of the start of its piece as it is into the piece. */
  lemma {:induction false} PlaceMeaning(target: Target, dest: int, addr: nat, len: nat, order: nat, i: nat)
    requires addr < U64 && order < 64 && i < len
    ensures var k := Into(addr, i, order);
            match target(dest, Wrap(addr + i - k))
            case None => PlaceOf(target, dest, addr, len, order, i) == None
            case Some(p) => PlaceOf(target, dest, addr, len, order, i) == Some(Place(p.id, p.addr + k))
    decreases len
  {
    hide Pow2, Piece, Into, PlaceOf;
    var n := Piece(addr, len, order);
    PlaceStep(target, dest, addr, len, order, i);
    PieceCases(addr, len, order, i);
    if i < n {
      IntoFirst(addr, i, order);
    } else {
      var k := Into(addr, i, order);
      IntoNext(addr, i, order);
      PlaceMeaning(target, dest, Wrap(addr + n), len - n, order, i - n);
      WrapTwice(addr, n, i - n - k);
      hide Wrap;
      assert addr + n + (i - n - k) == addr + i - k;
    }
  }

  lemma UniformShifts(target: Target, dest: int, order: nat, a: nat, k: nat)
    requires Uniform(target, dest, order)
    ensures Shifts(target, dest, order, a, k)
  {
    hide Shifts;
  }

  /** The pieces tile the range: the i-th byte read is the one at address + i. */
  lemma ReadAllBytes(device: Device, target: Target, dest: int, addr: nat, len: nat, order: nat, i: nat)
    requires addr < U64 && i < len && Uniform(target, dest, order) && ReadAll(device, target, dest, addr, len, order).Some?
    ensures |ReadAll(device, target, dest, addr, len, order).value| == len
    ensures target(dest, Wrap(addr + i)).Some?
    ensures ReadAll(device, target, dest, addr, len, order).value[i] == Peek(device, target(dest, Wrap(addr + i)).value)
  {
    hide ReadAll, Uniform, Wrap, PlaceOf;
    ReadSucceeds(device, target, dest, addr, len, order);
    ReadAllPlaces(device, target, dest, addr, len, order, i);
    UniformPlace(target, dest, addr, len, order, i);
  }

  // ----- what a write changes

  /** A write succeeds exactly when all its bytes are mapped. */
  lemma {:induction false} WriteSucceeds(device: Device, target: Target, dest: int, addr: nat, data: seq<int>, order: nat)
    ensures WriteAll(device, target, dest, addr, data, order).ok <==> AllMapped(target, dest, addr, |data|, order)
    decreases |data|
  {
    if data != [] {
      hide Piece, Wrap, AllMapped, PlaceOf, Store;
      AllMappedStep(target, dest, addr, |data|, order);
      var n := Piece(addr, |data|, order);
      WriteStep(device, target, dest, addr, data, order);
      var got := DirectWrite(device, target, dest, addr, data[..n]);
      if got.Some? { WriteSucceeds(got.value, target, dest, Wrap(addr + n), data[n..], order); }
    }
  }

  /** No byte from `from` on goes to place q. */
  ghost predicate NoneAfter(target: Target, dest: int, addr: nat, len: nat, order: nat, from: nat, q: Place) {
    forall i :: from <= i < len ==> PlaceOf(target, dest, addr, len, order, i) != Some(q)
  }

  lemma NoneAfterStep(target: Target, dest: int, addr: nat, len: nat, order: nat, from: nat, q: Place)
    requires len > 0 && NoneAfter(target, dest, addr, len, order, from, q)
    ensures var n := Piece(addr, len, order); NoneAfter(target, dest, Wrap(addr + n), len - n, order, if from < n then 0 else from - n, q)
  {
    hide Piece, Wrap;
    var n := Piece(addr, len, order);
    var a, m := Wrap(addr + n), len - n;
    var rest := if from < n then 0 else from - n;
    forall i | rest <= i < m ensures PlaceOf(target, dest, a, m, order, i) != Some(q) {
      assert PlaceOf(target, dest, addr, len, order, n + i) != Some(q);
    }
  }

  /** A place to which no byte goes is as before. */
  lemma {:induction false} WriteKeeps(device: Device, target: Target, dest: int, addr: nat, data: seq<int>, order: nat, q: Place)
    requires NoneAfter(target, dest, addr, |data|, order, 0, q)
    ensures Peek(WriteAll(device, target, dest, addr, data, order).device, q) == Peek(device, q)
    decreases |data|
  {
    hide Piece, Wrap, Store, PlaceOf, WriteAll;
    if data == [] {
      WriteNone(device, target, dest, addr, order);
    } else {
      var n := Piece(addr, |data|, order);
      NoneAfterStep(target, dest, addr, |data|, order, 0, q);
      WriteStep(device, target, dest, addr, data, order);
      var p := target(dest, addr);
      if p.Some? {
        StoreMeaning(device, p.value, data[..n], q);
        var i := q.addr - p.value.addr;
        if 0 <= i < n { PlaceStep(target, dest, addr, |data|, order, i); }
        hide NoneAfter;
        WriteKeeps(Store(device, p.value, data[..n]), target, dest, Wrap(addr + n), data[n..], order, q);
      }
    }
  }

  /** The last byte that goes to a place is what is there afterwards. */
  lemma {:induction false} WriteSets(device: Device, target: Target, dest: int, addr: nat, data: seq<int>, order: nat, i: nat)
    requires i < |data| && AllMapped(target, dest, addr, |data|, order)
    requires NoneAfter(target, dest, addr, |data|, order, i + 1, PlaceOf(target, dest, addr, |data|, order, i).value)
    ensures Peek(WriteAll(device, target, dest, addr, data, order).device, PlaceOf(target, dest, addr, |data|, order, i).value) == data[i]
    decreases |data|
  {
    hide Piece, Wrap, Store, NoneAfter, PlaceOf, WriteAll;
    var n := Piece(addr, |data|, order);
    var q := PlaceOf(target, dest, addr, |data|, order, i).value;
    PlaceStep(target, dest, addr, |data|, order, i);
    AllMappedStep(target, dest, addr, |data|, order);
    NoneAfterStep(target, dest, addr, |data|, order, i + 1, q);
    WriteStep(device, target, dest, addr, data, order);
    var next := Store(device, target(dest, addr).value, data[..n]);
    if i < n {
      StoreMeaning(device, target(dest, addr).value, data[..n], q);
      WriteKeeps(next, target, dest, Wrap(addr + n), data[n..], order, q);
    } else {
      WriteSets(next, target, dest, Wrap(addr + n), data[n..], order, i - n);
    }
  }

  function Mapped(target: Target, dest: int, addr: nat, i: nat): Option<Place> {
    target(dest, Wrap(addr + i))
  }

  /** Byte i is the last of a range that is mapped to q. */
  ghost predicate LastAt(target: Target, dest: int, addr: nat, len: nat, q: Place, i: nat) {
    Mapped(target, dest, addr, i) == Some(q) && forall j :: i < j < len ==> Mapped(target, dest, addr, j) != Some(q)
  }

  /** Where the mapping shifts whole safe windows, a write changes exactly the bytes of its range as mapped. */
  lemma WriteAllBytes(device: Device, target: Target, dest: int, addr: nat, data: seq<int>, order: nat, q: Place)
    requires addr < U64 && Uniform(target, dest, order) && WriteAll(device, target, dest, addr, data, order).ok
    ensures var now := Peek(WriteAll(device, target, dest, addr, data, order).device, q);
            && ((forall i :: 0 <= i < |data| ==> Mapped(target, dest, addr, i) != Some(q)) ==> now == Peek(device, q))
            && (forall i :: 0 <= i < |data| && LastAt(target, dest, addr, |data|, q, i) ==> now == data[i])
  {
    hide WriteAll, Uniform, Wrap, PlaceOf, Peek;
    WriteSucceeds(device, target, dest, addr, data, order);
    forall i | 0 <= i < |data| ensures PlaceOf(target, dest, addr, |data|, order, i) == Mapped(target, dest, addr, i) {
      UniformPlace(target, dest, addr, |data|, order, i);
    }
    if forall i :: 0 <= i < |data| ==> Mapped(target, dest, addr, i) != Some(q) { WriteKeeps(device, target, dest, addr, data, order, q); }
    forall i | 0 <= i < |data| && LastAt(target, dest, addr, |data|, q, i)
      ensures Peek(WriteAll(device, target, dest, addr, data, order).device, q) == data[i]
    {
      WriteSets(device, target, dest, addr, data, order, i);
    }
  }

  ghost predicate DistinctPlaces(target: Target, dest: int, addr: nat, len: nat, order: nat) {
    forall i, j :: 0 <= i < j < len ==> PlaceOf(target, dest, addr, len, order, i) != PlaceOf(target, dest, addr, len, order, j)
  }

  /** What was written is read back, if no two bytes go to the same place. */
  lemma ReadBack(device: Device, target: Target, dest: int, addr: nat, data: seq<int>, order: nat)
    requires WriteAll(device, target, dest, addr, data, order).ok && DistinctPlaces(target, dest, addr, |data|, order)
    ensures ReadAll(WriteAll(device, target, dest, addr, data, order).device, target, dest, addr, |data|, order) == Some(data)
  {
    hide WriteAll, ReadAll, PlaceOf, Peek;
    var now := WriteAll(device, target, dest, addr, data, order).device;
    WriteSucceeds(device, target, dest, addr, data, order);
    ReadSucceeds(now, target, dest, addr, |data|, order);
    forall i | 0 <= i < |data| ensures ReadAll(now, target, dest, addr, |data|, order).value[i] == data[i] {
      ReadAllPlaces(now, target, dest, addr, |data|, order, i);
      WriteSets(device, target, dest, addr, data, order, i);
    }
    assert ReadAll(now, target, dest, addr, |data|, order).value == data;
  }

  /** A write that fails has written everything before the first byte that is not mapped, and nothing else. */
  lemma {:induction false} WriteFails(device: Device, target: Target, dest: int, addr: nat, data: seq<int>, order: nat) returns (k: nat)
    requires !WriteAll(device, target, dest, addr, data, order).ok
    ensures k < |data| && PlaceOf(target, dest, addr, |data|, order, k).None?
    ensures WriteAll(device, target, dest, addr, data[..k], order) == Written(true, WriteAll(device, target, dest, addr, data, order).device)
    decreases |data|
  {
    hide Wrap, Store, PlaceOf, WriteAll, Pow2;
    if data == [] {
      WriteNone(device, target, dest, addr, order);
    } else {
      var n := Piece(addr, |data|, order);
      WriteStep(device, target, dest, addr, data, order);
      if target(dest, addr).None? {
        k := 0;
        WriteNone(device, target, dest, addr, order);
      } else {
        var rest := WriteFails(Store(device, target(dest, addr).value, data[..n]), target, dest, Wrap(addr + n), data[n..], order);
        k := n + rest;
        assert data[..k][..n] == data[..n] && data[..k][n..] == data[n..][..rest];
        WriteStep(device, target, dest, addr, data[..k], order);
      }
      PlaceStep(target, dest, addr, |data|, order, k);
    }
  }

  lemma WrapTwice(a: nat, n: nat, j: nat)
    ensures Wrap(Wrap(a + n) + j) == Wrap(a + n + j)
  {}

  lemma ReadNone(device: Device, target: Target, dest: int, addr: nat, order: nat)
    ensures ReadAll(device, target, dest, addr, 0, order) == Some([])
  {}

  lemma ZeroAligned(order: nat)
    requires order < 64
    ensures Aligned(Entry(0, 0, order, None))
  {
    WordPowers();
    Pow2Monotone(order, 64);
  }

  lemma SoundSizes(cache: seq<Entry>)
    requires AllSound(cache)
    ensures Sizes(cache)
  {}

  lemma {:induction false} FirstHitIs(cache: seq<Entry>, p: Place, len: nat, i: nat)
    requires i <= |cache| && (i < |cache| ==> Hit(cache[i], p.id, p.addr, len)) && forall k :: 0 <= k < i ==> !Hit(cache[k], p.id, p.addr, len)
    ensures FirstHit(cache, p, len) == i
  {}

  /** The entry is for this place's target, and the range at the offset is inside its window exactly when nothing wraps. */
  predicate Holds(e: Entry, p: Place, len: nat, offset: nat) {
    && e.id == p.id && e.addr <= p.addr && offset == p.addr - e.addr && e.window == Some(Place(e.id, e.addr))
    && (Inside(e, p.addr, len) <==> NoWrap(e, p.addr, len))
  }

  function Moved(e: Entry, p: Place): Entry
    requires e.order < 64
  {
    var base := RoundDown(p.addr, e.order);
    e.(id := p.id, addr := base, window := Some(Place(p.id, base)))
  }

  lemma HitHolds(e: Entry, p: Place, len: nat)
    requires Sound(e) && Hit(e, p.id, p.addr, len) && p.id != 0 && p.addr < U64 && 0 < len < U64
    ensures Holds(e, p, len, p.addr - e.addr)
  {
    HitInside(e, p.id, p.addr, len);
  }

  lemma ReplaceHolds(e: Entry, p: Place, len: nat)
    requires e.order < 64 && Fits(e, p.addr, len) && p.id != 0 && p.addr < U64 && 0 < len < U64
    ensures Sound(Moved(e, p)) && Moved(e, p).addr <= p.addr && Holds(Moved(e, p), p, len, p.addr - Moved(e, p).addr)
  {
    FitInside(e, p.addr, len);
    WindowAround(p.addr, e.order);
    hide RoundDown, Pow2;
  }

  /** After a failed area_init or acquire the same request hits the entry, though its area was never set up. */
  lemma StaleEntryHits(e: Entry, p: Place, len: nat)
    requires e.order < 64 && Fits(e, p.addr, len) && p.id != 0 && 0 < len && p.addr + len < U64
    requires Moved(e, p).addr + Size(e) < U64
    ensures var stale := Moved(e, p).(window := None); Hit(stale, p.id, p.addr, len) && !Sound(stale)
  {
    hide Pow2, RoundDown, Fits, Aligned;
    ReplaceHolds(e, p, len);
    assert Wrap(p.addr + len) == p.addr + len;
    assert Wrap(Moved(e, p).addr + Size(e)) == Moved(e, p).addr + Size(e);
    hide Wrap;
  }
}
