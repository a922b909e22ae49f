/**
 The registered-resource code itself: the operations update the ring context in place, one lock
 section each, and do what the steps of RsrcNodes say.
 */
module RsrcRing {
  import opened Basics
  import opened RsrcNodes

  /** What is left when all the nodes at work have had their turn. */
  ghost function WorkAll(c: Ctx): Ctx
    requires Inv(c)
    decreases |c.work|
  {
    if c.work == [] then c else WorkRest(c); WorkAll(DoWork(c))
  }

  lemma WorkRest(c: Ctx)
    requires Inv(c) && c.work != []
    ensures Enabled(c, WorkOnce) && Inv(DoWork(c))
  {
    assert Enabled(c, WorkOnce) by {
      assert c.work[0] in c.work;
      assert c.work[0] in c.refs && c.queued.Keys == c.refs.Keys;
    }
    hide Inv;
    WorkInv(c);
  }

  class Ring {
    var next: Node
    var rsrcNode: Option<Node>
    var backupNode: Option<Node>
    var cachedRefs: int
    var refs: map<Node, int>
    var refList: seq<Node>
    var done: set<Node>
    var putList: seq<Node>
    var armed: bool
    var work: seq<Node>
    var rsrcList: map<Node, seq<Rsrc>>
    var table: set<Rsrc>
    var freed: seq<Rsrc>
    var requests: map<int, Request>

    function State(): Ctx
      reads this
    {
      Ctx(next, rsrcNode, backupNode, cachedRefs, refs, refList, done, putList, armed, work, rsrcList, table, freed, requests)
    }

    ghost predicate Valid()
      reads this
    {
      Inv(State())
    }

    constructor ()
      ensures Valid() && State() == Start
    {
      next, rsrcNode, backupNode, cachedRefs := 0, None, None, 0;
      refs, refList, done, putList, armed, work := map[], [], {}, [], false, [];
      rsrcList, table, freed, requests := map[], {}, [], map[];
      new;
      StartInv();
    }

    method RefsRefill()
      requires rsrcNode.Some? && rsrcNode.value in refs
      modifies this`cachedRefs, this`refs
      ensures cachedRefs == old(cachedRefs) + Batch
      ensures refs == old(refs)[rsrcNode.value := old(refs)[rsrcNode.value] + Batch]
    {
      cachedRefs := cachedRefs + Batch;
      refs := refs[rsrcNode.value := refs[rsrcNode.value] + Batch];
    }

    method SetRsrcNode(q: int, unlocked: bool)
      requires Valid() && rsrcNode.Some?
      modifies this`requests, this`cachedRefs, this`refs
      ensures Valid() && rsrcNode.value in old(refs)
      // one reference more, of the current node: a cached one, one of a fresh batch, or one taken directly
      ensures q !in old(requests) ==> requests == old(requests)[q := Request(rsrcNode.value, {})]
      ensures q !in old(requests) && !unlocked && old(cachedRefs) > 0 ==> cachedRefs == old(cachedRefs) - 1 && refs == old(refs)
      ensures q !in old(requests) && !unlocked && old(cachedRefs) == 0 ==>
                cachedRefs == Batch - 1 && refs == old(refs)[rsrcNode.value := old(refs)[rsrcNode.value] + Batch]
      ensures q !in old(requests) && unlocked ==> cachedRefs == old(cachedRefs) && refs == old(refs)[rsrcNode.value := old(refs)[rsrcNode.value] + 1]
      ensures State() == if q in old(requests) then old(State()) else DoSetNode(old(State()), q, !unlocked)
    {
      hide Inv;
      CurKnown(State());
      if q !in requests {
        SetNodeInv(State(), q, !unlocked);
        requests := requests[q := Request(rsrcNode.value, {})];
        if !unlocked {
          cachedRefs := cachedRefs - 1;
          if cachedRefs < 0 { RefsRefill(); }
        } else {
          refs := refs[rsrcNode.value := refs[rsrcNode.value] + 1];
        }
      }
    }

    /** A request without a reference has nothing to give back. */
    method PutRsrc(q: int, locked: bool)
      requires Valid()
      modifies this`requests, this`cachedRefs, this`refs
      ensures Valid()
      ensures q !in old(requests) ==> State() == old(State())
      // its reference goes to the cache if it is of the current node, under the lock, and to its node otherwise
      ensures q in old(requests) ==>
                var n := old(requests)[q].node;
                && n in old(refs) && requests == old(requests) - {q}
                && (if locked && rsrcNode == Some(n) then cachedRefs == old(cachedRefs) + 1 && refs == old(refs)
                    else cachedRefs == old(cachedRefs) && refs == old(refs)[n := old(refs)[n] - 1])
      ensures q in old(requests) ==> State() == DoPut(old(State()), q, locked)
    {
      hide Inv;
      if q in requests {
        HeldKnown(State(), q);
        PutInv(State(), q, locked);
        var n := requests[q].node;
        requests := requests - {q};
        if locked && Some(n) == rsrcNode {
          cachedRefs := cachedRefs + 1;
        } else {
          refs := refs[n := refs[n] - 1];
        }
      }
    }

    method RefsDrop()
      requires rsrcNode.Some? ==> rsrcNode.value in refs
      requires rsrcNode.None? ==> cachedRefs == 0
      modifies this`cachedRefs, this`refs
      ensures cachedRefs == 0
      ensures refs == if rsrcNode.Some? then old(refs)[rsrcNode.value := old(refs)[rsrcNode.value] - old(cachedRefs)] else old(refs)
      ensures refs.Keys == old(refs).Keys && State() == Dropped(old(State()))
    {
      if cachedRefs != 0 {
        refs := refs[rsrcNode.value := refs[rsrcNode.value] - cachedRefs];
        cachedRefs := 0;
      } else if rsrcNode.Some? {
        assert refs == refs[rsrcNode.value := refs[rsrcNode.value] - 0];
      }
    }

    method QueueRemoval(r: Rsrc, gotMemory: bool) returns (ok: bool)
      requires Valid() && r in table && rsrcNode.Some?
      modifies this`table, this`rsrcList
      ensures Valid() && ok == gotMemory && rsrcNode.value in old(rsrcList)
      ensures ok ==> table == old(table) - {r} && rsrcList == old(rsrcList)[rsrcNode.value := [r] + old(rsrcList)[rsrcNode.value]]
      ensures State() == if ok then DoRemove(old(State()), r) else old(State())
    {
      hide Inv;
      CurKnown(State());
      if !gotMemory { return false; }
      RemoveInv(State(), r);
      rsrcList := rsrcList[rsrcNode.value := [r] + rsrcList[rsrcNode.value]];
      table := table - {r};
      ok := true;
    }

    method NodeSwitchStart(gotMemory: bool) returns (ok: bool)
      requires Valid()
      modifies this`next, this`backupNode, this`refs, this`rsrcList
      ensures Valid() && ok == backupNode.Some?
      // a new node, with one reference and nothing queued, if there was no backup and there is memory
      ensures if old(backupNode).None? && gotMemory
              then backupNode == Some(old(next)) && next == old(next) + 1 && refs == old(refs)[old(next) := 1] && rsrcList == old(rsrcList)[old(next) := []]
              else backupNode == old(backupNode) && next == old(next) && refs == old(refs) && rsrcList == old(rsrcList)
      ensures State() == DoStart(old(State()), gotMemory)
    {
      hide Inv;
      SwitchStartInv(State(), gotMemory);
      if backupNode.Some? { return true; }
      if !gotMemory { return false; }
      backupNode := Some(next);
      refs := refs[next := 1];
      rsrcList := rsrcList[next := []];
      next := next + 1;
      ok := true;
    }

    method NodeSwitch(kill: bool)
      requires Valid() && backupNode.Some? && (kill ==> rsrcNode.Some?)
      modifies this`cachedRefs, this`refs, this`refList, this`rsrcNode, this`backupNode
      ensures Valid() && (old(rsrcNode).Some? ==> old(rsrcNode).value in old(refs))
      // the cached references go back; a killed node is listed last and loses its own; the backup becomes current if there is no other
      ensures cachedRefs == 0
      ensures old(rsrcNode).Some? ==>
                var n := old(rsrcNode).value; refs == old(refs)[n := old(refs)[n] - old(cachedRefs) - if kill then 1 else 0]
      ensures old(rsrcNode).None? ==> refs == old(refs)
      ensures refList == if kill then old(refList) + [old(rsrcNode).value] else old(refList)
      ensures if kill || old(rsrcNode).None? then rsrcNode == old(backupNode) && backupNode == None
              else rsrcNode == old(rsrcNode) && backupNode == old(backupNode)
      ensures State() == DoSwitch(old(State()), kill)
    {
      hide Inv;
      CurKnown(State());
      if kill { KillInv(State()); } else { KeepInv(State()); }
      RefsDrop();
      ghost var d := State();
      hide Dropped;
      hide Killed;
      if kill { KillNode(); }
      if rsrcNode.None? {
        rsrcNode := backupNode;
        backupNode := None;
      }
    }

    method KillNode()
      requires rsrcNode.Some? && rsrcNode.value in refs
      modifies this`refs, this`refList, this`rsrcNode
      ensures State() == Killed(old(State()))
    {
      var n := rsrcNode.value;
      refList := refList + [n];
      refs := refs[n := refs[n] - 1];
      rsrcNode := None;
    }

    /** The callback of a node whose references are gone: nodes leave the list in order. */
    method NodeRefZero(n: Node)
      requires Valid() && Enabled(State(), RefZero(n))
      modifies this`done, this`refList, this`putList, this`armed
      // the done nodes at the head of the list, and no others, leave it for the worker, the oldest last
      ensures done == old(done) + {n} && |refList| <= |old(refList)| && (refList != [] ==> refList[0] !in done)
      ensures var k := |old(refList)| - |refList|;
              && refList == old(refList)[k..] && (forall i :: 0 <= i < k ==> old(refList)[i] in done)
              && |putList| == k + |old(putList)| && putList[k..] == old(putList) && (forall i :: 0 <= i < k ==> putList[i] == old(refList)[k - 1 - i])
              && armed == (old(armed) || (k > 0 && old(putList) == []))
      ensures Valid() && State() == DoRefZero(old(State()), n)
    {
      hide Inv;
      RefZeroInv(State(), n);
      hide Enabled;
      done := done + {n};
      hide Reversed, DonePrefix;
      ghost var k := RecycleDone();
      DonePrefixIs(old(refList), done, k);
      ReversedAll(old(refList)[..k]);
    }

    /** Nodes at the head of the list that are done go to the worker, the last one first. */
    method RecycleDone() returns (ghost k: nat)
      modifies this`refList, this`putList, this`armed
      ensures k <= |old(refList)| && refList == old(refList)[k..] && (refList != [] ==> refList[0] !in done)
      ensures forall i :: 0 <= i < k ==> old(refList)[i] in done
      ensures putList == Reversed(old(refList)[..k]) + old(putList)
      ensures armed == (old(armed) || (k > 0 && old(putList) == []))
    {
      k := 0;
      var firstAdd := false;
      assert Reversed(refList[..0]) + putList == putList;
      hide Reversed;
      while refList != [] && refList[0] in done
        invariant k <= |old(refList)| && refList == old(refList)[k..] && forall i :: 0 <= i < k ==> old(refList)[i] in done
        invariant putList == Reversed(old(refList)[..k]) + old(putList) && |putList| == k + |old(putList)|
        invariant armed == old(armed) && (firstAdd <==> k > 0 && old(putList) == [])
        decreases |refList|
      {
        assert refList[0] == old(refList)[k];
        ReversedSnoc(old(refList), k);
        if putList == [] { firstAdd := true; }
        putList := [refList[0]] + putList;
        refList := refList[1..];
        k := k + 1;
      }
      armed := armed || firstAdd;
    }

    method PutNode(n: Node)
      requires n in rsrcList && n in refs
      modifies this`freed, this`rsrcList, this`refs
      ensures freed == old(freed) + old(rsrcList)[n]
      ensures rsrcList == old(rsrcList) - {n} && refs == old(refs) - {n}
    {
      var list := rsrcList[n];
      var i := 0;
      while i < |list|
        invariant i <= |list| && freed == old(freed) + list[..i] && rsrcList == old(rsrcList) && refs == old(refs)
      {
        freed := freed + [list[i]];
        i := i + 1;
      }
      assert list[..i] == list;
      rsrcList := rsrcList - {n};
      refs := refs - {n};
    }

    /** The worker: every node handed over is put and freed. */
    method PutWork()
      requires Valid() && work == [] && armed
      modifies this`work, this`putList, this`armed, this`freed, this`rsrcList, this`refs
      ensures Valid() && work == [] && putList == [] && !armed
      // exactly the resources queued on these nodes are put, and the nodes are freed
      ensures forall r :: r in freed <==> r in old(freed) || exists n :: n in old(putList) && n in old(rsrcList) && r in old(rsrcList)[n]
      ensures forall n :: n in rsrcList <==> n in old(rsrcList) && n !in old(putList)
      ensures forall n :: n in rsrcList ==> rsrcList[n] == old(rsrcList)[n]
      ensures forall n :: n in refs <==> n in old(refs) && n !in old(putList)
      ensures forall n :: n in refs ==> refs[n] == old(refs)[n]
      ensures var c := old(State()).(work := old(putList), putList := [], armed := false); Inv(c) && State() == WorkAll(c)
    {
      hide Inv, DoWork, PutSoFar;
      TakeWorkInv(State());
      work := putList;
      putList, armed := [], false;
      ghost var c, m := State(), 0;
      PutNone(c);
      while work != []
        invariant m <= |c.work| && work == c.work[m..] && PutSoFar(c, State(), m)
        invariant Valid() && putList == [] && !armed && Inv(c) && WorkAll(State()) == WorkAll(c)
        decreases |work|
      {
        var n := work[0];
        WorkRest(State());
        ghost var before := State();
        WorkKnown(State());
        PutNode(n);
        work := work[1..];
        assert State() == DoWork(before) by { hide WorkAll; ShowWork(before); }
        PutOneMore(c, before, m);
        m := m + 1;
      }
      PutAll(c, State(), m);
    }
  }

  /** The first m nodes at work have had their turn. */
  ghost predicate PutSoFar(c: Ctx, c': Ctx, m: nat)
    requires m <= |c.work|
  {
    && (forall r :: r in c'.freed <==> r in c.freed || exists n :: n in c.work[..m] && n in c.queued && r in c.queued[n])
    && (forall n :: n in c'.queued <==> n in c.queued && n !in c.work[..m])
    && (forall n :: n in c'.queued ==> c'.queued[n] == c.queued[n])
    && (forall n :: n in c'.refs <==> n in c.refs && n !in c.work[..m])
    && (forall n :: n in c'.refs ==> c'.refs[n] == c.refs[n])
  }

  lemma PutNone(c: Ctx)
    ensures PutSoFar(c, c, 0)
  {}

  lemma PutAll(c: Ctx, c': Ctx, m: nat)
    requires m == |c.work| && PutSoFar(c, c', m)
    ensures forall r :: r in c'.freed <==> r in c.freed || exists n :: n in c.work && n in c.queued && r in c.queued[n]
    ensures forall n :: n in c'.queued <==> n in c.queued && n !in c.work
    ensures forall n :: n in c'.queued ==> c'.queued[n] == c.queued[n]
    ensures forall n :: n in c'.refs <==> n in c.refs && n !in c.work
    ensures forall n :: n in c'.refs ==> c'.refs[n] == c.refs[n]
  {
    assert c.work[..m] == c.work;
  }

  lemma PutOneMore(c: Ctx, c': Ctx, m: nat)
    requires m < |c.work| && c'.work == c.work[m..] && PutSoFar(c, c', m) && c.work[m] in c'.queued
    ensures PutSoFar(c, DoWork(c'), m + 1) && DoWork(c').work == c.work[m + 1..]
  {
    var n := c.work[m];
    assert c.work[..m + 1] == c.work[..m] + [n] && c'.work[0] == n;
    forall r ensures r in DoWork(c').freed <==> r in c.freed || exists k :: k in c.work[..m + 1] && k in c.queued && r in c.queued[k] {
      if r in c.queued[n] { assert n in c.work[..m + 1]; }
    }
  }

  lemma CurKnown(c: Ctx)
    requires Inv(c)
    ensures c.cur.Some? ==> c.cur.value in c.refs && c.cur.value in c.queued
    ensures c.cur.None? ==> c.cached == 0
  {}

  lemma HeldKnown(c: Ctx, q: int)
    requires Inv(c) && q in c.reqs
    ensures c.reqs[q].node in c.refs
  {}

  lemma WorkKnown(c: Ctx)
    requires Inv(c) && c.work != []
    ensures c.work[0] in c.refs && c.work[0] in c.queued
  {
    assert c.work[0] in c.work;
  }

  lemma ShowWork(c: Ctx)
    requires c.work != [] && c.work[0] in c.queued
    ensures var n := c.work[0];
            DoWork(c) == c.(work := c.work[1..], freed := c.freed + c.queued[n], refs := c.refs - {n}, queued := c.queued - {n})
  {}

  lemma {:induction false} ReversedSnoc(s: seq<Node>, i: nat)
    requires i < |s|
    ensures Reversed(s[..i + 1]) == [s[i]] + Reversed(s[..i])
  {
    if i > 0 {
      ReversedSnoc(s[1..], i - 1);
      assert s[..i + 1][1..] == s[1..][..i] && s[..i][1..] == s[1..][..i - 1];
    }
  }

  lemma {:induction false} ReversedAll(s: seq<Node>)
    ensures |Reversed(s)| == |s| && forall i :: 0 <= i < |s| ==> Reversed(s)[i] == s[|s| - 1 - i]
  {
    if s != [] { ReversedAll(s[1..]); }
  }

  lemma {:induction false} DonePrefixIs(list: seq<Node>, done: set<Node>, k: nat)
    requires k <= |list| && (forall i :: 0 <= i < k ==> list[i] in done) && (k < |list| ==> list[k] !in done)
    ensures DonePrefix(list, done) == k
  {
    if k > 0 { DonePrefixIs(list[1..], done, k - 1); }
  }
}
