/**
 Task references are taken in batches and cached. A task's inflight counter less its cached
 references is always the number of its live requests.
 */
module TaskRefs {

  type Task = int

  const CacheNr: int := 1024
  const EAgain: int := -11

  /** How one pass through the submission loop goes. */
  datatype Try = NoMemory | BadIndex | Accepted | Failed

  /** A completed request: whose it is, and whether its last reference is gone. */
  datatype Done = Done(task: Task, last: bool)

  /** How many requests come to life before the loop stops. */
  function Count(tries: seq<Try>, submitAll: bool): (n: nat)
    ensures n <= |tries|
  {
    if tries == [] then 0
    else match tries[0]
      case NoMemory => 0
      case BadIndex => 0
      case Accepted => 1 + Count(tries[1..], submitAll)
      case Failed => if submitAll then 1 + Count(tries[1..], submitAll) else 1
  }

  /** The loop goes on after a try that was accepted, or that failed if all are to be submitted. */
  predicate GoesOn(t: Try, submitAll: bool) {
    t.Accepted? || (t.Failed? && submitAll)
  }

  /** k is the first of nr tries at which the loop stops, or nr. */
  ghost predicate StopsAt(tries: seq<Try>, nr: nat, submitAll: bool, k: nat) {
    && k <= nr <= |tries| && (forall i :: 0 <= i < k ==> GoesOn(tries[i], submitAll)) && (k < nr ==> !GoesOn(tries[k], submitAll))
  }

  /** The tries before k were requests, and the one at k if it failed as one. */
  function Requests(tries: seq<Try>, nr: nat, k: nat): nat
    requires nr <= |tries|
  {
    k + if k < nr && tries[k].Failed? then 1 else 0
  }

  lemma {:induction false} CountStops(tries: seq<Try>, submitAll: bool) returns (k: nat)
    ensures StopsAt(tries, |tries|, submitAll, k) && Count(tries, submitAll) == Requests(tries, |tries|, k)
  {
    if tries == [] || !GoesOn(tries[0], submitAll) {
      k := 0;
    } else {
      var rest := CountStops(tries[1..], submitAll);
      k := rest + 1;
    }
  }

  /** The requests of t that are freed, by their places. */
  ghost function FreedAt(list: seq<Done>, t: Task): set<int> {
    set i | 0 <= i < |list| && list[i].last && list[i].task == t
  }

  lemma {:induction false} FreedCounts(list: seq<Done>, t: Task)
    ensures Freed(list, t) == |FreedAt(list, t)|
  {
    if list != [] {
      var n := |list| - 1;
      FreedCounts(list[..n], t);
      assert FreedAt(list, t) == FreedAt(list[..n], t) + if list[n].last && list[n].task == t then {n} else {};
    }
  }

  lemma FreedNone()
    ensures forall t :: Freed([], t) == 0
  {}

  lemma FreedNext(list: seq<Done>, i: nat)
    requires i < |list|
    ensures forall t :: Freed(list[..i + 1], t) == Freed(list[..i], t) + if list[i].last && list[i].task == t then 1 else 0
  {
    assert list[..i + 1][..i] == list[..i];
  }

  /** How many of the requests are freed on behalf of t. */
  function Freed(list: seq<Done>, t: Task): nat {
    if list == [] then 0
    else Freed(list[..|list| - 1], t) + if list[|list| - 1].last && list[|list| - 1].task == t then 1 else 0
  }

  function Min3(a: nat, b: nat, c: nat): nat {
    if a <= b && a <= c then a else if b <= c then b else c
  }

  class Tasks {
    const current: Task
    var inflight: map<Task, int>
    var cached: map<Task, int>
    var usage: map<Task, int>
    ghost var live: map<Task, int>
    /** References to a task struct that are not counted in inflight. */
    ghost const other: map<Task, int>

    ghost predicate Balanced(t: Task)
      requires t in inflight && t in cached && t in usage && t in live && t in other
      reads this`inflight, this`cached, this`usage, this`live
    {
      inflight[t] - cached[t] == live[t] && cached[t] >= 0 && usage[t] == other[t] + inflight[t]
    }

    ghost predicate Valid()
      reads this`inflight, this`cached, this`usage, this`live
    {
      && inflight.Keys == cached.Keys == usage.Keys == live.Keys == other.Keys && current in inflight
      && forall t :: t in inflight ==> Balanced(t)
    }

    constructor (me: Task, usage: map<Task, int>)
      requires me in usage
      ensures Valid() && current == me && live == map t | t in usage :: 0
    {
      current := me;
      inflight, cached, live := map t | t in usage :: 0, map t | t in usage :: 0, map t | t in usage :: 0;
      this.usage, other := usage, usage;
    }

    /** Brings the cache to its full size. */
    method Refill()
      requires current in inflight && current in cached && current in usage
      modifies this`inflight, this`cached, this`usage
      ensures cached == old(cached)[current := CacheNr]
      ensures inflight == old(inflight)[current := old(inflight)[current] + CacheNr - old(cached)[current]]
      ensures usage == old(usage)[current := old(usage)[current] + CacheNr - old(cached)[current]]
    {
      var refill := -cached[current] + CacheNr;
      inflight := inflight[current := inflight[current] + refill];
      usage := usage[current := usage[current] + refill];
      cached := cached[current := cached[current] + refill];
    }

    /** Takes nr references for requests to come. */
    method GetTaskRefs(nr: nat)
      requires Valid()
      modifies this`inflight, this`cached, this`usage, this`live
      ensures Valid() && live == old(live)[current := old(live)[current] + nr]
      ensures cached == old(cached)[current := if old(cached)[current] >= nr then old(cached)[current] - nr else CacheNr]
    {
      assert Balanced(current);
      cached := cached[current := cached[current] - nr];
      if cached[current] < 0 { Refill(); }
      live := live[current := live[current] + nr];
      forall t | t in inflight ensures Balanced(t) { assert old(Balanced(t)); }
    }

    /** Gives back the references of nr requests of a task. */
    method PutTask(t: Task, nr: nat)
      requires Valid() && t in inflight
      modifies this`inflight, this`cached, this`usage, this`live
      ensures Valid() && live == old(live)[t := old(live)[t] - nr]
      ensures cached == if t == current then old(cached)[t := old(cached)[t] + nr] else old(cached)
    {
      assert Balanced(t);
      if t == current {
        cached := cached[t := cached[t] + nr];
      } else {
        inflight := inflight[t := inflight[t] - nr];
        usage := usage[t := usage[t] - nr];
      }
      live := live[t := live[t] - nr];
      forall u | u in inflight ensures Balanced(u) { assert old(Balanced(u)); }
    }

    /** io_uring_drop_tctx_refs: the cache is emptied. */
    method DropRefs(t: Task)
      requires Valid() && t in inflight
      modifies this`inflight, this`cached, this`usage
      ensures Valid() && cached == old(cached)[t := 0] && inflight[t] == live[t]
    {
      assert Balanced(t);
      var refs := cached[t];
      if refs != 0 {
        cached := cached[t := 0];
        inflight := inflight[t := inflight[t] - refs];
        usage := usage[t := usage[t] - refs];
      } else {
        assert cached == cached[t := 0];
      }
      forall u | u in inflight ensures Balanced(u) { assert old(Balanced(u)); }
    }

    /** io_submit_sqes: references are taken for the whole batch and those not used are given back. */
    method SubmitSqes(wanted: nat, sqEntries: nat, entries: nat, tries: seq<Try>, submitAll: bool) returns (submitted: int, ghost k: nat)
      requires Valid() && |tries| >= Min3(wanted, sqEntries, entries) && wanted > 0 && sqEntries > 0
      modifies this`inflight, this`cached, this`usage, this`live
      ensures Valid()
      // every try before k is a request and goes well, or fails while all are to be submitted; the one at k ends the loop
      ensures var nr := Min3(wanted, sqEntries, entries);
              && k <= nr && (forall i :: 0 <= i < k ==> tries[i].Accepted? || (tries[i].Failed? && submitAll))
              && (k < nr ==> tries[k].NoMemory? || tries[k].BadIndex? || (tries[k].Failed? && !submitAll))
              && var n := k + if k < nr && tries[k].Failed? then 1 else 0;
                 && live == old(live)[current := old(live)[current] + n]
                 && submitted == if nr > 0 && k == 0 && tries[0].NoMemory? then EAgain else n
      ensures var nr := Min3(wanted, sqEntries, entries);
              var n := Count(tries[..nr], submitAll);
              && live == old(live)[current := old(live)[current] + n]
              && submitted == if entries > 0 && n == 0 && tries[0] == NoMemory then EAgain else n
    {
      assert Count(tries[..0], submitAll) == 0 && current in live;
      hide Balanced, Count, Valid;
      if entries == 0 {
        assert live == live[current := live[current] + 0];
        return 0, 0;
      }
      var nr := Min3(wanted, sqEntries, entries);
      GetTaskRefs(nr);
      submitted, k := SubmitLoop(nr, tries, submitAll);
      if submitted != nr {
        var used := if submitted == EAgain then 0 else submitted;
        GiveBack(nr - used);
      }
    }

    /** References taken for requests that never came to life. */
    method GiveBack(unused: nat)
      requires Valid()
      modifies this`cached, this`live
      ensures Valid() && live == old(live)[current := old(live)[current] - unused]
    {
      assert Balanced(current);
      cached := cached[current := cached[current] + unused];
      live := live[current := live[current] - unused];
      forall u | u in inflight ensures Balanced(u) { assert old(Balanced(u)); }
    }

    /** io_free_batch_list: requests of one task that follow each other are given back together. */
    method FreeBatchList(list: seq<Done>)
      requires Valid() && list != [] && forall i :: 0 <= i < |list| ==> list[i].task in inflight
      modifies this`inflight, this`cached, this`usage, this`live
      ensures Valid() && live.Keys == old(live).Keys
      ensures forall t :: t in live ==> live[t] == old(live)[t] - |FreedAt(list, t)|
      ensures forall t :: t in live ==> live[t] == old(live)[t] - Freed(list, t)
    {
      hide Freed, FreedAt;
      FreedNone();
      var task: Task, has, refs := current, false, 0;
      var i := 0;
      while i < |list|
        invariant i <= |list| && Valid() && live.Keys == old(live).Keys && task in inflight && refs >= 0 && (!has ==> refs == 0)
        invariant forall t :: t in live ==> live[t] == old(live)[t] - Freed(list[..i], t) + if t == task then refs else 0
      {
        FreedNext(list, i);
        var done := list[i];
        if done.last {
          if !has || done.task != task {
            if has { PutTask(task, refs); }
            task, has, refs := done.task, true, 0;
          }
          refs := refs + 1;
        }
        i := i + 1;
      }
      assert list[..i] == list;
      if has { PutTask(task, refs); }
      forall t | t in live ensures Freed(list, t) == |FreedAt(list, t)| { FreedCounts(list, t); }
    }
  }

  lemma CountWithin(tries: seq<Try>, nr: nat, submitAll: bool) returns (k: nat)
    requires 0 < nr <= |tries|
    ensures StopsAt(tries, nr, submitAll, k)
    ensures var n := Count(tries[..nr], submitAll); n == Requests(tries, nr, k) && (n == 0 && tries[0] == NoMemory <==> k == 0 && tries[0] == NoMemory)
  {
    hide Count;
    k := CountStops(tries[..nr], submitAll);
  }

  /** Stops at the first try that fails, or at nr. */
  method SubmitLoop(nr: nat, tries: seq<Try>, submitAll: bool) returns (submitted: int, ghost k: nat)
    requires 0 < nr <= |tries|
    // every try before k is a request and goes well, or fails while all are to be submitted; the one at k ends the loop
    ensures k <= nr && forall i :: 0 <= i < k ==> tries[i].Accepted? || (tries[i].Failed? && submitAll)
    ensures k < nr ==> tries[k].NoMemory? || tries[k].BadIndex? || (tries[k].Failed? && !submitAll)
    ensures submitted == if k == 0 && tries[0].NoMemory? then EAgain else k + if k < nr && tries[k].Failed? then 1 else 0
    ensures var n := Count(tries[..nr], submitAll); submitted == if n == 0 && tries[0] == NoMemory then EAgain else n
  {
    submitted := 0;
    k := CountWithin(tries, nr, submitAll);
    while true
      invariant 0 <= submitted < nr
      invariant Count(tries[..nr], submitAll) == submitted + Count(tries[submitted..nr], submitAll)
      decreases nr - submitted
    {
      ghost var rest := tries[submitted..nr];
      assert rest[1..] == tries[submitted + 1..nr];
      match tries[submitted] {
        case NoMemory =>
          if submitted == 0 { submitted := EAgain; }
          break;
        case BadIndex =>
          break;
        case Accepted =>
          submitted := submitted + 1;
        case Failed =>
          submitted := submitted + 1;
          if !submitAll { break; }
      }
      if submitted >= nr { break; }
    }
  }
}
