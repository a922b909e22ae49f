/**
 The completion ring and its overflow list, with 32-bit counters that wrap.

 The ghost history counts without wrapping: `written` is every entry ever put in the ring, of which
 the reader has taken the first `taken`; `lost` is every entry dropped for want of room or memory;
 `posted` is every entry handed to the ring at all.
 */
module CqRing {
  import opened Basics
  import opened Bits
  import opened Word32

  datatype Cqe = Cqe(userData: nat, res: int, flags: nat)

  class Ring {
    const order: nat
    const cqes: array<Cqe>
    var head: nat
    var tail: nat
    var cachedTail: nat
    var overflowList: seq<Cqe>
    var overflowBit: bool
    var overflowFlag: bool
    var extra: nat
    var cqOverflow: nat
    var sqDropped: nat

    ghost var written: seq<Cqe>
    ghost var taken: nat
    ghost var committed: nat
    ghost var lost: seq<Cqe>
    ghost var posted: seq<Cqe>
    ghost var requests: nat
    ghost var aux: nat
    ghost var invalid: nat

    function Entries(): nat {
      Pow2(order)
    }

    /** The ring shows the reader exactly what was written and not yet taken. */
    ghost predicate Shows()
      reads this`head, this`tail, this`cachedTail, this`written, this`taken, this`committed, cqes
    {
      && order <= 31 && cqes.Length == Entries()
      && taken <= committed <= |written| <= taken + Entries()
      && head == Wrap(taken) && tail == Wrap(committed) && cachedTail == Wrap(|written|)
      && forall i :: taken <= i < |written| ==> cqes[i % Entries()] == written[i]
    }

    /** Every entry posted is written, waiting or lost. */
    ghost predicate Conserved()
      reads this`posted, this`written, this`overflowList, this`lost, this`requests, this`aux
    {
      Split(posted, written, overflowList, lost) && |posted| == requests + aux
    }

    ghost predicate Counts()
      reads this`cqOverflow, this`lost, this`sqDropped, this`invalid, this`extra, this`aux
    {
      cqOverflow == Wrap(|lost|) && sqDropped == Wrap(invalid) && extra == Wrap(aux - |lost| - invalid)
    }

    ghost predicate Valid()
      reads this, cqes
    {
      Shows() && Conserved() && Counts() && overflowBit == overflowFlag == (overflowList != [])
    }

    constructor (k: nat)
      requires k <= 31
      ensures Valid() && order == k && fresh(cqes)
      ensures written == overflowList == lost == posted == [] && requests == aux == invalid == taken == committed == 0
    {
      order := k;
      cqes := new Cqe[Pow2(k)](_ => Cqe(0, 0, 0));
      head, tail, cachedTail, overflowList, overflowBit, overflowFlag := 0, 0, 0, [], false, false;
      extra, cqOverflow, sqDropped := 0, 0, 0;
      written, taken, committed, lost, posted, requests, aux, invalid := [], 0, 0, [], [], 0, 0, 0;
    }

    /** The number of entries not yet taken. */
    function Events(): nat
      reads this
    {
      Wrap(cachedTail - head)
    }

    lemma EventsMeaning()
      requires Shows()
      ensures Events() == |written| - taken && Entries() < U32
    {
      Pow2Monotone(order, 32);
      WordPowers();
      WrapSub(|written|, taken);
      WrapSmall(|written| - taken);
    }

    /** io_get_cqe: a place for the next entry, unless the ring is full. */
    method GetCqe() returns (ok: bool, slot: nat)
      requires Shows()
      modifies this`cachedTail
      ensures ok <==> |written| - taken < Entries()
      ensures ok ==> slot == |written| % Entries() && slot < cqes.Length && cachedTail == Wrap(|written| + 1)
      ensures !ok ==> cachedTail == old(cachedTail)
    {
      EventsMeaning();
      if Events() == Entries() {
        return false, 0;
      }
      slot := And(cachedTail, Entries() - 1);
      RingSlot(|written|, order);
      WrapAdd(|written|, 1);
      cachedTail := Wrap(cachedTail + 1);
      ok := true;
    }

    /** io_account_cq_overflow: one entry is dropped. */
    method AccountOverflow(ghost c: Cqe)
      requires Counts()
      modifies this`cqOverflow, this`extra, this`lost
      ensures Counts() && lost == old(lost) + [c]
    {
      WrapAdd(|lost|, 1);
      WrapSub(aux - |lost| - invalid, 1);
      hide Wrap;
      cqOverflow := Wrap(cqOverflow + 1);
      extra := Wrap(extra - 1);
      lost := lost + [c];
    }

    /** The entry goes into the ring if there is room; nothing not yet taken is overwritten. */
    method Write(c: Cqe) returns (ok: bool)
      requires Shows()
      modifies this`cachedTail, this`written, cqes
      ensures Shows()
      ensures ok <==> |old(written)| - taken < Entries()
      ensures written == if ok then old(written) + [c] else old(written)
    {
      var slot;
      ok, slot := GetCqe();
      if ok {
        forall i | taken <= i < |written| ensures i % Entries() != slot { SlotsDiffer(i, |written|, Entries()); }
        cqes[slot] := c;
        written := written + [c];
      }
    }

    // ----- filling

    /** io_cqring_event_overflow. */
    method EventOverflow(c: Cqe, gotMemory: bool) returns (ok: bool)
      requires Counts() && overflowBit == overflowFlag == (overflowList != [])
      modifies this`overflowList, this`overflowBit, this`overflowFlag, this`cqOverflow, this`extra, this`lost
      ensures Counts() && overflowBit == overflowFlag == (overflowList != []) && ok == gotMemory
      ensures overflowList == if ok then old(overflowList) + [c] else old(overflowList)
      ensures lost == if ok then old(lost) else old(lost) + [c]
    {
      if !gotMemory {
        AccountOverflow(c);
        return false;
      }
      if overflowList == [] {
        overflowBit, overflowFlag := true, true;
      }
      overflowList := overflowList + [c];
      ok := true;
    }

    /** __io_fill_cqe: into the ring, else onto the list, else dropped. */
    method FillCqe(c: Cqe, gotMemory: bool) returns (ok: bool)
      requires Shows() && Counts() && overflowBit == overflowFlag == (overflowList != [])
      modifies this`cachedTail, this`written, cqes
      modifies this`overflowList, this`overflowBit, this`overflowFlag, this`cqOverflow, this`extra, this`lost
      ensures Shows() && Counts() && overflowBit == overflowFlag == (overflowList != [])
      ensures ok <==> |old(written)| - taken < Entries() || gotMemory
      ensures Filed(old(written), old(overflowList), old(lost), written, overflowList, lost, c, |old(written)| - taken < Entries(), gotMemory)
    {
      ok := Write(c);
      if !ok { ok := EventOverflow(c, gotMemory); }
    }

    /** The completion of a request, unless the request asked for none. */
    method FillReq(c: Cqe, skip: bool, gotMemory: bool)
      requires Valid()
      modifies this`cachedTail, this`written, cqes
      modifies this`overflowList, this`overflowBit, this`overflowFlag, this`cqOverflow, this`extra, this`lost
      modifies this`posted, this`requests
      ensures Valid()
      ensures posted == if skip then old(posted) else old(posted) + [c]
      ensures requests == old(requests) + if skip then 0 else 1
      ensures if skip then written == old(written) && overflowList == old(overflowList) && lost == old(lost)
              else Filed(old(written), old(overflowList), old(lost), written, overflowList, lost, c, |old(written)| - taken < Entries(), gotMemory)
    {
      hide Shows, Counts, Entries, Split;
      if !skip {
        var _ := FillCqe(c, gotMemory);
        OneMore(old(posted), old(written), old(overflowList), old(lost), c);
        posted := posted + [c];
        requests := requests + 1;
      }
    }

    /** A completion that no request accounts for. */
    method FillAux(c: Cqe, gotMemory: bool) returns (ok: bool)
      requires Valid()
      modifies this`cachedTail, this`written, cqes
      modifies this`overflowList, this`overflowBit, this`overflowFlag, this`cqOverflow, this`extra, this`lost
      modifies this`posted, this`aux
      ensures Valid() && posted == old(posted) + [c] && aux == old(aux) + 1
      ensures Filed(old(written), old(overflowList), old(lost), written, overflowList, lost, c, |old(written)| - taken < Entries(), gotMemory)
      ensures ok <==> |old(written)| - taken < Entries() || gotMemory
    {
      hide Shows, Entries, Split;
      WrapAdd(aux - |lost| - invalid, 1);
      hide Wrap;
      extra := Wrap(extra + 1);
      aux := aux + 1;
      hide Counts;
      ok := FillCqe(c, gotMemory);
      OneMore(old(posted), old(written), old(overflowList), old(lost), c);
      posted := posted + [c];
    }

    method Commit()
      requires Shows()
      modifies this`tail, this`committed
      ensures Shows() && committed == |written|
    {
      tail := cachedTail;
      committed := |written|;
    }

    /** Room left in the ring. */
    ghost function Room(): nat
      requires Shows()
      reads this`head, this`tail, this`cachedTail, this`written, this`taken, this`committed, cqes
    {
      taken + Entries() - |written|
    }

    /** The loop of the flush: the list goes into the ring in order as far as there is room; if forced, the rest is dropped. */
    method DrainOverflow(force: bool) returns (moved: bool)
      requires Shows() && Counts()
      modifies this`cachedTail, this`written, cqes, this`overflowList, this`cqOverflow, this`extra, this`lost
      ensures Shows() && Counts()
      ensures var k := Min(old(Room()), |old(overflowList)|);
              && written == old(written) + old(overflowList)[..k]
              && overflowList == (if force then [] else old(overflowList)[k..])
              && lost == (if force then old(lost) + old(overflowList)[k..] else old(lost))
              && moved == (if force then old(overflowList) != [] else k > 0)
    {
      hide Shows, Counts, Entries;
      moved := false;
      ghost var list, room := overflowList, Room();
      ghost var i := 0;
      while overflowList != []
        invariant Shows() && Counts() && i <= |list| && overflowList == list[i..]
        invariant force || i <= room
        invariant written == old(written) + list[..Min(room, i)]
        invariant lost == if i <= room then old(lost) else old(lost) + list[room..i]
        invariant moved == (i > 0)
        decreases |overflowList|
      {
        var c := overflowList[0];
        var ok := Write(c);
        if !ok && !force { break; }
        if !ok { AccountOverflow(c); }
        Advance(list, room, i);
        moved := true;
        overflowList := overflowList[1..];
        i := i + 1;
      }
    }

    /** __io_cqring_overflow_flush: true when nothing is left behind. */
    method OverflowFlush(force: bool) returns (allFlushed: bool)
      requires Valid()
      modifies this`cachedTail, this`written, cqes, this`overflowList, this`cqOverflow, this`extra, this`lost
      modifies this`overflowBit, this`overflowFlag, this`tail, this`committed
      ensures Valid()
      ensures var k := Min(old(Room()), |old(overflowList)|);
              && written == old(written) + old(overflowList)[..k]
              && overflowList == (if force then [] else old(overflowList)[k..])
              && lost == (if force then old(lost) + old(overflowList)[k..] else old(lost))
      // entries stay behind or are lost only because the ring is full
      ensures overflowList != [] || |lost| > |old(lost)| ==> |written| == taken + Entries()
      ensures allFlushed <==> overflowList == [] && (force || old(|written| - taken < Entries()))
      ensures committed == if old(overflowList) != [] && (force || old(|written| - taken < Entries())) then |written| else old(committed)
    {
      hide Shows, Counts, Split, Wrap, Entries;
      EventsMeaning();
      if !force && Events() == Entries() {
        assert overflowList[0..] == overflowList && written + overflowList[..0] == written;
        return false;
      }
      allFlushed := FlushList(force);
    }

    method FlushList(force: bool) returns (allFlushed: bool)
      requires Valid()
      modifies this`cachedTail, this`written, cqes, this`overflowList, this`cqOverflow, this`extra, this`lost
      modifies this`overflowBit, this`overflowFlag, this`tail, this`committed
      ensures Valid()
      ensures var k := Min(old(Room()), |old(overflowList)|);
              && written == old(written) + old(overflowList)[..k]
              && overflowList == (if force then [] else old(overflowList)[k..])
              && lost == (if force then old(lost) + old(overflowList)[k..] else old(lost))
      // entries stay behind or are lost only because the ring is full
      ensures overflowList != [] || |lost| > |old(lost)| ==> |written| == taken + Entries()
      ensures allFlushed <==> overflowList == []
      ensures committed == if old(overflowList) != [] && (force || old(|written| - taken < Entries())) then |written| else old(committed)
    {
      hide Shows, Counts, Split, Wrap, Entries;
      ghost var k := Min(Room(), |overflowList|);
      Drained(posted, written, overflowList, lost, k);
      var moved := DrainOverflow(force);
      assert Conserved();
      hide Conserved;
      assert overflowList != [] ==> old(overflowList) != [];
      allFlushed := overflowList == [];
      if allFlushed {
        overflowBit, overflowFlag := false, false;
      }
      if moved { Commit(); }
    }

    // ----- the reader and the submission ring

    /** The application takes entries, never past the tail it sees: it gets them in the order they were written. */
    method Consume(n: nat) returns (got: seq<Cqe>)
      requires Valid() && taken + n <= committed
      modifies this`head, this`taken
      ensures Valid() && taken == old(taken) + n && got == written[old(taken)..taken]
    {
      var i := 0;
      got := [];
      hide Conserved, Counts;
      while i < n
        invariant i <= n && Valid() && taken + n - i <= committed
        invariant taken == old(taken) + i && got == written[old(taken)..taken]
      {
        RingSlot(taken, order);
        got := got + [cqes[And(head, Entries() - 1)]];
        WrapAdd(taken, 1);
        head := Wrap(head + 1);
        taken := taken + 1;
        i := i + 1;
      }
    }

    /** io_get_sqe finds an index out of range: the submission is dropped. */
    method DropSqe()
      requires Valid()
      modifies this`extra, this`sqDropped, this`invalid
      ensures Valid() && invalid == old(invalid) + 1
    {
      hide Shows, Conserved;
      WrapSub(aux - |lost| - invalid, 1);
      WrapAdd(invalid, 1);
      hide Wrap;
      extra := Wrap(extra - 1);
      sqDropped := Wrap(sqDropped + 1);
      invalid := invalid + 1;
    }

    /** In 32-bit arithmetic, ring tail plus waiting entries less cq_extra is the requests completed plus the submissions dropped. */
    lemma Conservation()
      requires Valid()
      ensures Wrap(cachedTail + |overflowList| - extra) == Wrap(requests + sqDropped)
      ensures |posted| == |written| + |overflowList| + |lost|
    {
      assert |posted| == |multiset(posted)| == |written| + |overflowList| + |lost|;
      hide Split;
      Balance(|written|, |overflowList|, |lost|, aux, requests, invalid);
    }
  }

  /** An entry goes into the ring if there is room, else onto the list if there is memory, else it is lost. */
  predicate Filed(w: seq<Cqe>, o: seq<Cqe>, l: seq<Cqe>, w': seq<Cqe>, o': seq<Cqe>, l': seq<Cqe>, c: Cqe, room: bool, memory: bool) {
    && w' == (if room then w + [c] else w)
    && o' == (if !room && memory then o + [c] else o)
    && l' == (if !room && !memory then l + [c] else l)
  }

  /** The entries of `all` are those of the three lists, each as often. */
  ghost predicate Split(all: seq<Cqe>, a: seq<Cqe>, b: seq<Cqe>, d: seq<Cqe>) {
    multiset(all) == multiset(a) + multiset(b) + multiset(d)
  }

  lemma OneMore(all: seq<Cqe>, a: seq<Cqe>, b: seq<Cqe>, d: seq<Cqe>, c: Cqe)
    requires Split(all, a, b, d)
    ensures Split(all + [c], a + [c], b, d) && Split(all + [c], a, b + [c], d) && Split(all + [c], a, b, d + [c])
  {}

  /** Taking entries from the front of the second list, some to the first and the others to the third, loses none. */
  lemma Drained(all: seq<Cqe>, a: seq<Cqe>, b: seq<Cqe>, d: seq<Cqe>, k: nat)
    requires Split(all, a, b, d) && k <= |b|
    ensures Split(all, a + b[..k], b[k..], d) && Split(all, a + b[..k], [], d + b[k..])
  {
    assert b == b[..k] + b[k..];
  }

  lemma Balance(w: nat, o: nat, l: nat, aux: nat, requests: nat, invalid: nat)
    requires w + o + l == requests + aux
    ensures Wrap(Wrap(w) + o - Wrap(aux - l - invalid)) == Wrap(requests + Wrap(invalid))
  {
    WrapAdd(w, o - Wrap(aux - l - invalid));
    WrapSub(w + o, aux - l - invalid);
    assert Wrap(w + o - Wrap(aux - l - invalid)) == Wrap(w + o - (aux - l - invalid)) by { SubWrap(w + o, aux - l - invalid); }
    WrapAdd(invalid, requests);
    hide Wrap;
    assert w + o - (aux - l - invalid) == invalid + requests;
  }

  lemma SubWrap(a: int, b: int)
    ensures Wrap(a - Wrap(b)) == Wrap(a - b)
  {}

  /** One entry further, as far as there is room or beyond it. */
  lemma Advance(list: seq<Cqe>, room: nat, i: nat)
    requires i < |list|
    ensures list[i..][1..] == list[i + 1..]
    ensures i < room ==> list[..i + 1] == list[..i] + [list[i]]
    ensures room <= i ==> list[room..i + 1] == list[room..i] + [list[i]]
  {}
}
