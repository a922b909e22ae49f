/**
 Config-epoch collision resolution terminates. When epochs change only through the collision
 handler and through headers that raise currentEpoch, the node with the greatest name never
 moves and the node with the k-th greatest name moves at most 2^(k-1) - 1 times, however late,
 repeated or reordered the messages are; as long as two nodes share a config epoch, the next fresh
 header of the greater name makes the other move; and from every reachable state some exchange of
 headers leads to distinct epochs that stay as they are. All nodes are masters.
 */
module CollisionBound {
  import opened Basics
  import opened Bits
  import opened Epochs

  /** Node i is the i-th smallest name. `past` records every config epoch a node has had, `moves`
      how often it changed; both are history only. */
  datatype Cluster = Cluster(hosts: seq<Table>, net: set<Header>, past: seq<set<nat>>, moves: seq<nat>)

  /** What a ping carries of epochs. */
  datatype Header = Header(from: Id, currentEpoch: nat, configEpoch: nat)

  datatype Event = Send(i: nat) | Deliver(i: nat, m: Header)

  predicate WellFormed(c: Cluster) {
    && |c.past| == |c.hosts| && |c.moves| == |c.hosts|
    && forall i :: 0 <= i < |c.hosts| ==> c.hosts[i].me == i && i in c.hosts[i].epochs
  }

  function Config(c: Cluster, i: nat): nat
    requires WellFormed(c) && i < |c.hosts|
  {
    c.hosts[i].epochs[i]
  }

  predicate Can(c: Cluster, e: Event)
    requires WellFormed(c)
  {
    e.i < |c.hosts| && (e.Deliver? ==> e.m in c.net && e.m.from in c.hosts[e.i].epochs)
  }

  function Heard(t: Table, m: Header): Table
    requires t.me in t.epochs && m.from in t.epochs
  {
    OnPing(t, m.from, m.currentEpoch, m.configEpoch, true)
  }

  function Do(c: Cluster, e: Event): Cluster
    requires WellFormed(c) && Can(c, e)
  {
    match e
    case Send(i) => c.(net := c.net + {Header(i, c.hosts[i].currentEpoch, Config(c, i))})
    case Deliver(i, m) =>
      var v := Heard(c.hosts[i], m);
      if i in v.epochs && v.epochs[i] != Config(c, i)
      then c.(hosts := c.hosts[i := v], past := c.past[i := c.past[i] + {v.epochs[i]}], moves := c.moves[i := c.moves[i] + 1])
      else c.(hosts := c.hosts[i := v])
  }

  predicate Start(c: Cluster) {
    && WellFormed(c) && c.net == {}
    && (forall i :: 0 <= i < |c.hosts| ==> c.moves[i] == 0 && c.past[i] == {Config(c, i)} && Config(c, i) <= c.hosts[i].currentEpoch)
    && (forall i, j :: 0 <= i < |c.hosts| && 0 <= j < |c.hosts| ==> BehindAt(c, i, j))
  }

  ghost predicate Runs(c: Cluster, events: seq<Event>, c': Cluster)
    decreases |events|
  {
    if events == [] then c == c'
    else WellFormed(c) && Can(c, events[0]) && Runs(Do(c, events[0]), events[1..], c')
  }

  // ----- the invariant

  /** Config epochs only grow, so each move adds a new one to the past. */
  predicate Own(c: Cluster, i: nat)
    requires WellFormed(c) && i < |c.hosts|
  {
    && Config(c, i) <= c.hosts[i].currentEpoch
    && Config(c, i) in c.past[i] && (forall e :: e in c.past[i] ==> e <= Config(c, i))
    && |c.past[i]| == c.moves[i] + 1
  }

  /** An epoch was given up only because a node with a greater name had it. */
  ghost predicate Ceded(c: Cluster, i: nat)
    requires WellFormed(c) && i < |c.hosts|
  {
    forall e :: e in c.past[i] && e != Config(c, i) ==> HeldAbove(c, i, e)
  }

  ghost predicate HeldAbove(c: Cluster, i: nat, e: nat)
    requires WellFormed(c)
  {
    exists j :: i < j < |c.hosts| && e in c.past[j]
  }

  predicate Carried(c: Cluster)
    requires WellFormed(c)
  {
    forall m :: m in c.net ==> m.from < |c.hosts| && m.configEpoch in c.past[m.from]
  }

  /** Nobody believes in a config epoch its owner has not reached. */
  predicate Behind(c: Cluster)
    requires WellFormed(c)
  {
    forall i, j :: 0 <= i < |c.hosts| && 0 <= j < |c.hosts| ==> BehindAt(c, i, j)
  }

  predicate BehindAt(c: Cluster, i: nat, j: nat)
    requires WellFormed(c) && i < |c.hosts| && j < |c.hosts|
  {
    j in c.hosts[i].epochs ==> c.hosts[i].epochs[j] <= Config(c, j)
  }

  ghost predicate Inv(c: Cluster) {
    && WellFormed(c) && Carried(c) && Behind(c)
    && (forall i :: 0 <= i < |c.hosts| ==> Own(c, i))
    && (forall i :: 0 <= i < |c.hosts| ==> Ceded(c, i))
  }

  lemma StartInv(c: Cluster)
    requires Start(c)
    ensures Inv(c)
  {}

  lemma SendInv(c: Cluster, i: nat)
    requires Inv(c) && i < |c.hosts|
    ensures Inv(Do(c, Send(i)))
  {
    var c' := Do(c, Send(i));
    assert Own(c, i);
    forall k, j | 0 <= k < |c.hosts| && 0 <= j < |c.hosts| ensures BehindAt(c', k, j) { assert BehindAt(c, k, j); }
    forall j | 0 <= j < |c.hosts| ensures Own(c', j) && Ceded(c', j) {
      assert Own(c, j) && Ceded(c, j);
      forall e | e in c'.past[j] && e != Config(c', j) ensures HeldAbove(c', j, e) { assert HeldAbove(c, j, e); }
    }
  }

  /** What handling a header does to the receiver's own epoch. */
  lemma ReceiveEffect(v: Table, m: Header)
    requires v.me in v.epochs && m.from in v.epochs && v.epochs[v.me] <= v.currentEpoch
    requires m.from == v.me ==> m.configEpoch <= v.epochs[v.me]
    ensures var v' := Heard(v, m);
            && v'.me == v.me && v'.epochs.Keys == v.epochs.Keys && v'.epochs[v.me] <= v'.currentEpoch
            && (v'.epochs[v.me] == v.epochs[v.me]
                || (v'.epochs[v.me] > v.epochs[v.me] && m.from > v.me && m.configEpoch == v.epochs[v.me]))
            && (forall x :: x in v.epochs && x != v.me ==> v'.epochs[x] == if x == m.from then Max(v.epochs[x], m.configEpoch) else v.epochs[x])
            && (m.from > v.me && m.configEpoch == v.epochs[v.me] && v.epochs[m.from] <= m.configEpoch ==> v'.epochs[v.me] > v.epochs[v.me])
  {}

  lemma DeliverOwn(c: Cluster, i: nat, m: Header)
    requires Inv(c) && Can(c, Deliver(i, m))
    ensures WellFormed(Do(c, Deliver(i, m))) && Own(Do(c, Deliver(i, m)), i)
    ensures Config(Do(c, Deliver(i, m)), i) >= Config(c, i)
    ensures Ceded(Do(c, Deliver(i, m)), i)
  {
    assert Own(c, i) && Ceded(c, i);
    ReceiveEffect(c.hosts[i], m);
    hide Heard;
    var c' := Do(c, Deliver(i, m));
    forall e | e in c'.past[i] && e != Config(c', i) ensures HeldAbove(c', i, e) {
      if e == Config(c, i) {
        assert i < m.from < |c'.hosts| && e in c'.past[m.from];
      } else {
        assert HeldAbove(c, i, e);
        var j :| i < j < |c.hosts| && e in c.past[j];
        assert e in c'.past[j];
      }
    }
  }

  lemma DeliverOthers(c: Cluster, i: nat, m: Header, j: nat)
    requires Inv(c) && Can(c, Deliver(i, m)) && j < |c.hosts| && j != i && WellFormed(Do(c, Deliver(i, m)))
    ensures Own(Do(c, Deliver(i, m)), j) && Ceded(Do(c, Deliver(i, m)), j)
  {
    assert Own(c, j) && Ceded(c, j);
    hide Heard;
    var c' := Do(c, Deliver(i, m));
    forall e | e in c'.past[j] && e != Config(c', j) ensures HeldAbove(c', j, e) {
      assert HeldAbove(c, j, e);
      var k :| j < k < |c.hosts| && e in c.past[k];
      assert e in c'.past[k];
    }
  }

  lemma DeliverBehind(c: Cluster, i: nat, m: Header)
    requires Inv(c) && Can(c, Deliver(i, m))
    requires WellFormed(Do(c, Deliver(i, m))) && Config(Do(c, Deliver(i, m)), i) >= Config(c, i)
    ensures Behind(Do(c, Deliver(i, m))) && Carried(Do(c, Deliver(i, m)))
  {
    assert Own(c, i) && Own(c, m.from);
    ReceiveEffect(c.hosts[i], m);
    hide Heard;
    var c' := Do(c, Deliver(i, m));
    forall k, j | 0 <= k < |c.hosts| && 0 <= j < |c.hosts| ensures BehindAt(c', k, j) {
      assert BehindAt(c, k, j);
      assert Own(c, j);
    }
  }

  lemma EventInv(c: Cluster, e: Event)
    requires Inv(c) && Can(c, e)
    ensures Inv(Do(c, e))
  {
    match e
    case Send(i) => SendInv(c, i);
    case Deliver(i, m) =>
      DeliverOwn(c, i, m);
      DeliverBehind(c, i, m);
      var c' := Do(c, e);
      hide Do, Own, Ceded, Behind, Carried;
      forall j | 0 <= j < |c'.hosts| ensures Own(c', j) && Ceded(c', j) {
        if j != i { DeliverOthers(c, i, m, j); }
      }
  }

  lemma {:induction false} RunInv(c: Cluster, events: seq<Event>, c': Cluster)
    requires Inv(c) && Runs(c, events, c')
    ensures Inv(c')
    decreases |events|
  {
    hide Do, Can, Inv;
    if events != [] {
      EventInv(c, events[0]);
      RunInv(Do(c, events[0]), events[1..], c');
    }
  }

  // ----- counting

  /** All config epochs ever held by nodes from `i` up. */
  ghost function HeldFrom(c: Cluster, i: nat): set<nat>
    requires |c.past| == |c.hosts| && i <= |c.hosts|
    decreases |c.hosts| - i
  {
    if i == |c.hosts| then {} else c.past[i] + HeldFrom(c, i + 1)
  }

  lemma {:induction false} HeldFromHas(c: Cluster, i: nat, j: nat, e: nat)
    requires |c.past| == |c.hosts| && i <= j < |c.hosts| && e in c.past[j]
    ensures e in HeldFrom(c, i)
    decreases j - i
  {
    if i < j { HeldFromHas(c, i + 1, j, e); }
  }

  lemma {:induction false} SmallerSet(a: set<nat>, b: set<nat>)
    requires a <= b
    ensures |a| <= |b|
  {
    if a != {} {
      var x :| x in a;
      SmallerSet(a - {x}, b - {x});
    }
  }

  lemma UnionSize(a: set<nat>, b: set<nat>)
    ensures |a + b| <= |a| + |b|
  {
    assert a + b == a + (b - a);
    SmallerSet(b - a, b);
  }

  /** The i-th node from the top has had at most 2^(n-1-i) config epochs, all nodes above it together fewer. */
  lemma {:induction false} PastBound(c: Cluster, i: nat)
    requires Inv(c) && i < |c.hosts|
    ensures |c.past[i]| <= Pow2(|c.hosts| - 1 - i)
    ensures |HeldFrom(c, i)| <= Pow2(|c.hosts| - i) - 1
    decreases |c.hosts| - i
  {
    var n := |c.hosts|;
    assert Own(c, i) && Ceded(c, i);
    var above := HeldFrom(c, i + 1);
    if i + 1 < n { PastBound(c, i + 1); } else { assert Pow2(0) == 1; }
    forall e | e in c.past[i] - {Config(c, i)} ensures e in above {
      assert HeldAbove(c, i, e);
      var j :| i < j < n && e in c.past[j];
      HeldFromHas(c, i + 1, j, e);
    }
    SmallerSet(c.past[i] - {Config(c, i)}, above);
    UnionSize(c.past[i], above);
  }

  /** Over every run, node i moves at most 2^(n-1-i) - 1 times; the greatest name never moves. */
  lemma MovesBounded(c: Cluster, events: seq<Event>, c': Cluster, i: nat)
    requires Start(c) && Runs(c, events, c') && i < |c'.hosts|
    ensures WellFormed(c') && c'.moves[i] <= Pow2(|c'.hosts| - 1 - i) - 1
  {
    StartInv(c);
    RunInv(c, events, c');
    PastBound(c', i);
    assert Own(c', i);
  }

  /** Two nodes with the same config epoch do not stay so: the fresh header of the greater name moves the other. */
  lemma CollisionMoves(c: Cluster, i: nat, j: nat)
    requires Inv(c) && i < j < |c.hosts| && j in c.hosts[i].epochs && Config(c, i) == Config(c, j)
    ensures var c1 := Do(c, Send(j));
            var m := Header(j, c.hosts[j].currentEpoch, Config(c, j));
            WellFormed(c1) && Can(c1, Deliver(i, m)) && Do(c1, Deliver(i, m)).moves[i] == c.moves[i] + 1
  {
    assert Own(c, i) && BehindAt(c, i, j);
    var m := Header(j, c.hosts[j].currentEpoch, Config(c, j));
    ReceiveEffect(c.hosts[i], m);
  }

  // ----- resolution ends

  predicate Acquainted(c: Cluster) {
    forall i, j :: 0 <= i < |c.hosts| && 0 <= j < |c.hosts| ==> j in c.hosts[i].epochs
  }

  ghost predicate AllDistinct(c: Cluster)
    requires WellFormed(c)
  {
    forall i, j :: 0 <= i < j < |c.hosts| ==> Config(c, i) != Config(c, j)
  }

  /** How often the nodes from i up can still move. */
  function Room(c: Cluster, i: nat): int
    requires |c.moves| == |c.hosts| && i <= |c.hosts|
    decreases |c.hosts| - i
  {
    if i == |c.hosts| then 0 else Pow2(|c.hosts| - 1 - i) - 1 - c.moves[i] + Room(c, i + 1)
  }

  lemma {:induction false} RoomLeft(c: Cluster, i: nat)
    requires Inv(c) && i <= |c.hosts|
    ensures 0 <= Room(c, i) <= Pow2(|c.hosts| - i)
    decreases |c.hosts| - i
  {
    if i < |c.hosts| {
      PastBound(c, i);
      assert Own(c, i);
      RoomLeft(c, i + 1);
    }
  }

  lemma {:induction false} RoomFalls(c: Cluster, c': Cluster, k: nat, i: nat)
    requires |c.moves| == |c.hosts| == |c'.hosts| == |c'.moves| && k < |c.hosts| && i <= |c.hosts| && c'.moves == c.moves[k := c.moves[k] + 1]
    ensures Room(c', i) == Room(c, i) - if i <= k then 1 else 0
    decreases |c.hosts| - i
  {
    if i < |c.hosts| { RoomFalls(c, c', k, i + 1); }
  }

  /** The exchange that settles one collision. */
  lemma OneCollision(c: Cluster, i: nat, j: nat) returns (events: seq<Event>, c': Cluster)
    requires Inv(c) && Acquainted(c) && i < j < |c.hosts| && Config(c, i) == Config(c, j)
    ensures |events| == 2 && Runs(c, events, c') && Inv(c') && Acquainted(c') && |c'.hosts| == |c.hosts|
    ensures c'.moves == c.moves[i := c.moves[i] + 1]
  {
    var m := Header(j, c.hosts[j].currentEpoch, Config(c, j));
    CollisionMoves(c, i, j);
    var c1 := Do(c, Send(j));
    c' := Do(c1, Deliver(i, m));
    EventInv(c, Send(j));
    EventInv(c1, Deliver(i, m));
    assert Own(c1, i);
    ReceiveEffect(c1.hosts[i], m);
    hide Heard, Inv, Own;
    events := [Send(j), Deliver(i, m)];
    assert events[1..] == [Deliver(i, m)] && events[1..][1..] == [];
    assert Runs(c1, events[1..], c');
  }

  lemma {:induction false} RunsConcat(c: Cluster, a: seq<Event>, c1: Cluster, b: seq<Event>, c': Cluster)
    requires Runs(c, a, c1) && Runs(c1, b, c')
    ensures Runs(c, a + b, c')
    decreases |a|
  {
    hide Do, Can, WellFormed;
    if a == [] {
      assert a + b == b;
    } else {
      assert (a + b)[1..] == a[1..] + b;
      RunsConcat(Do(c, a[0]), a[1..], c1, b, c');
    }
  }

  /** Wherever a cluster of nodes that know each other is, some exchange of headers, of bounded length, makes all config epochs distinct. */
  lemma {:induction false} ResolutionEnds(c: Cluster) returns (events: seq<Event>, c': Cluster)
    requires Inv(c) && Acquainted(c)
    ensures Runs(c, events, c') && Inv(c') && Acquainted(c') && AllDistinct(c') && |events| <= 2 * Room(c, 0) <= 2 * Pow2(|c.hosts|)
    decreases Room(c, 0)
  {
    RoomLeft(c, 0);
    if AllDistinct(c) {
      events, c' := [], c;
    } else {
      var i, j :| 0 <= i < j < |c.hosts| && Config(c, i) == Config(c, j);
      hide Inv, Acquainted, AllDistinct, Pow2;
      var first, c1 := OneCollision(c, i, j);
      RoomLeft(c1, 0);
      RoomFalls(c, c1, i, 0);
      var rest;
      rest, c' := ResolutionEnds(c1);
      RunsConcat(c, first, c1, rest, c');
      events := first + rest;
    }
  }

  // ----- and stays so

  /** Node i is up to date about j. */
  predicate Knows(c: Cluster, i: nat, j: nat)
    requires WellFormed(c) && i < |c.hosts| && j < |c.hosts|
  {
    j in c.hosts[i].epochs && c.hosts[i].epochs[j] == Config(c, j)
  }

  /** All epochs are distinct, and everybody knows them. */
  ghost predicate Settled(c: Cluster) {
    WellFormed(c) && AllDistinct(c) && forall i, j :: 0 <= i < |c.hosts| && 0 <= j < |c.hosts| ==> Knows(c, i, j)
  }

  /** Nobody has moved, and nobody knows less. */
  ghost predicate Quiet(c: Cluster, c': Cluster) {
    && WellFormed(c) && WellFormed(c') && |c'.hosts| == |c.hosts| && c'.moves == c.moves
    && (forall k :: 0 <= k < |c.hosts| ==> Config(c', k) == Config(c, k))
    && (forall i, j :: 0 <= i < |c.hosts| && 0 <= j < |c.hosts| && Knows(c, i, j) ==> Knows(c', i, j))
  }

  lemma DeliverQuiet(c: Cluster, i: nat, m: Header)
    requires Inv(c) && Can(c, Deliver(i, m)) && (m.configEpoch != Config(c, i) || m.from == i || c.hosts[i].epochs[m.from] > m.configEpoch)
    ensures Quiet(c, Do(c, Deliver(i, m)))
    ensures m.configEpoch == Config(c, m.from) ==> Knows(Do(c, Deliver(i, m)), i, m.from)
  {
    assert Own(c, i) && Own(c, m.from);
    assert BehindAt(c, i, m.from);
    ReceiveEffect(c.hosts[i], m);
    NoCollision(c.hosts[i], m);
    hide Heard;
  }

  lemma NoCollision(v: Table, m: Header)
    requires v.me in v.epochs && m.from in v.epochs
    requires m.configEpoch != v.epochs[v.me] || m.from == v.me || v.epochs[m.from] > m.configEpoch
    requires m.from == v.me ==> m.configEpoch <= v.epochs[v.me]
    ensures Heard(v, m).epochs[v.me] == v.epochs[v.me]
  {}

  /** Two distinct nodes with distinct epochs: a fresh header informs and moves nobody. */
  lemma Inform(c: Cluster, i: nat, j: nat) returns (events: seq<Event>, c': Cluster)
    requires Inv(c) && Acquainted(c) && AllDistinct(c) && i < |c.hosts| && j < |c.hosts|
    ensures Runs(c, events, c') && Inv(c') && Acquainted(c') && AllDistinct(c') && Quiet(c, c') && Knows(c', i, j)
  {
    if i == j {
      events, c' := [], c;
    } else {
      var m := Header(j, c.hosts[j].currentEpoch, Config(c, j));
      var c1 := Do(c, Send(j));
      EventInv(c, Send(j));
      assert Quiet(c, c1);
      DeliverQuiet(c1, i, m);
      c' := Do(c1, Deliver(i, m));
      EventInv(c1, Deliver(i, m));
      KeepsAcquainted(c1, i, m);
      events := [Send(j), Deliver(i, m)];
      assert events[1..] == [Deliver(i, m)] && events[1..][1..] == [];
      hide Heard, Inv;
      assert Runs(c1, events[1..], c');
    }
  }

  lemma KeepsAcquainted(c: Cluster, i: nat, m: Header)
    requires Inv(c) && Acquainted(c) && Can(c, Deliver(i, m))
    ensures Acquainted(Do(c, Deliver(i, m)))
  {
    assert Own(c, i);
    assert Own(c, m.from);
    ReceiveEffect(c.hosts[i], m);
    hide Heard;
  }

  lemma QuietTrans(a: Cluster, b: Cluster, c: Cluster)
    requires Quiet(a, b) && Quiet(b, c)
    ensures Quiet(a, c)
  {
    hide Knows;
  }

  ghost predicate KnowsBelow(c: Cluster, i: nat, j: nat)
    requires WellFormed(c) && i < |c.hosts| && j <= |c.hosts|
  {
    forall k :: 0 <= k < j ==> Knows(c, i, k)
  }

  /** Node i is informed about all nodes. */
  lemma {:induction false} InformRow(c: Cluster, i: nat, j: nat) returns (events: seq<Event>, c': Cluster)
    requires Inv(c) && Acquainted(c) && AllDistinct(c) && i < |c.hosts| && j <= |c.hosts| && KnowsBelow(c, i, j)
    ensures Runs(c, events, c') && Inv(c') && Acquainted(c') && AllDistinct(c') && Quiet(c, c') && KnowsBelow(c', i, |c.hosts|)
    decreases |c.hosts| - j
  {
    hide Acquainted, AllDistinct, Knows;
    if j == |c.hosts| {
      events, c' := [], c;
    } else {
      var a, c1 := Inform(c, i, j);
      assert KnowsBelow(c1, i, j + 1);
      hide KnowsBelow, Quiet;
      var b;
      b, c' := InformRow(c1, i, j + 1);
      QuietTrans(c, c1, c');
      RunsConcat(c, a, c1, b, c');
      events := a + b;
    }
  }

  lemma {:induction false} InformAll(c: Cluster, i: nat) returns (events: seq<Event>, c': Cluster)
    requires Inv(c) && Acquainted(c) && AllDistinct(c) && i <= |c.hosts| && forall k :: 0 <= k < i ==> KnowsBelow(c, k, |c.hosts|)
    ensures Runs(c, events, c') && Inv(c') && Settled(c')
    decreases |c.hosts| - i
  {
    if i == |c.hosts| {
      events, c' := [], c;
      forall k, j | 0 <= k < |c.hosts| && 0 <= j < |c.hosts| ensures Knows(c, k, j) { assert KnowsBelow(c, k, |c.hosts|); }
    } else {
      assert KnowsBelow(c, i, 0);
      hide Acquainted, AllDistinct, Knows, Settled;
      var a, c1 := InformRow(c, i, 0);
      forall k | 0 <= k < i + 1 ensures KnowsBelow(c1, k, |c1.hosts|) { if k < i { assert KnowsBelow(c, k, |c.hosts|); } }
      var b;
      b, c' := InformAll(c1, i + 1);
      RunsConcat(c, a, c1, b, c');
      events := a + b;
    }
  }

  /** From every reachable state in which all nodes know each other, some exchange of headers settles the cluster. */
  lemma ReachableSettles(c: Cluster, before: seq<Event>, c1: Cluster) returns (events: seq<Event>, c': Cluster)
    requires Start(c) && Runs(c, before, c1) && Acquainted(c1)
    ensures Runs(c, before + events, c') && Settled(c')
  {
    hide Acquainted, AllDistinct, Settled, Inv, Start;
    StartInv(c);
    RunInv(c, before, c1);
    var a, c2 := ResolutionEnds(c1);
    var b;
    b, c' := InformAll(c2, 0);
    RunsConcat(c1, a, c2, b, c');
    events := a + b;
    RunsConcat(c, before, c1, events, c');
  }

  lemma SettledEvent(c: Cluster, e: Event)
    requires Inv(c) && Settled(c) && Can(c, e)
    ensures Settled(Do(c, e)) && Do(c, e).moves == c.moves
  {
    match e
    case Send(i) =>
      assert Quiet(c, Do(c, e));
    case Deliver(i, m) =>
      assert Knows(c, i, m.from) && Own(c, m.from);
      DeliverQuiet(c, i, m);
      hide Do, Knows;
  }

  /** In a settled cluster nobody moves any more, whatever old headers arrive. */
  lemma {:induction false} SettledForever(c: Cluster, events: seq<Event>, c': Cluster)
    requires Inv(c) && Settled(c) && Runs(c, events, c')
    ensures Settled(c') && c'.moves == c.moves
    decreases |events|
  {
    hide Inv, Settled, Do, Can;
    if events != [] {
      EventInv(c, events[0]);
      SettledEvent(c, events[0]);
      SettledForever(Do(c, events[0]), events[1..], c');
    }
  }
}
