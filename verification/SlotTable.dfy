/**
 The slot-ownership table of a cluster node and what keeps it consistent: the table and the
 per-node bitmaps name the same owner for every slot, counters equal popcounts, the links between
 masters and slaves match, and failure reports name known nodes, one per sender.
 */
module SlotTable {
  import opened Basics
  import opened Bitmap

  type Id = int
  type Table = seq<Option<Id>>

  datatype Report = Report(sender: Id, time: int)

  datatype Node = Node(bits: Bitmap, numslots: int, configEpoch: nat, master: bool, slave: bool,
                       slaveof: Option<Id>, slaves: seq<Id>, reports: seq<Report>)

  type Nodes = map<Id, Node>

  // ----- the invariant

  ghost predicate AgreesAt(slots: Table, n: Id, node: Node)
    requires |slots| == Slots
  {
    && node.numslots == Popcount(node.bits)
    && forall j :: 0 <= j < Slots ==> (TestBit(node.bits, j) <==> slots[j] == Some(n))
  }

  ghost predicate Agrees(slots: Table, nodes: Nodes) {
    && |slots| == Slots
    && (forall n :: n in nodes ==> AgreesAt(slots, n, nodes[n]))
    && (forall j :: 0 <= j < Slots && slots[j].Some? ==> slots[j].value in nodes)
  }

  /** `b` is a master that node `a` knows, and has `a` in its list. */
  ghost predicate UpLink(nodes: Nodes, a: Id)
    requires a in nodes
  {
    nodes[a].slaveof.Some? ==>
      nodes[a].slave && !nodes[a].master && nodes[a].slaveof.value in nodes && a in nodes[nodes[a].slaveof.value].slaves
  }

  ghost predicate DownLinks(nodes: Nodes, b: Id)
    requires b in nodes
  {
    && Distinct(nodes[b].slaves)
    && forall a :: a in nodes[b].slaves ==> a in nodes && nodes[a].slaveof == Some(b)
  }

  ghost predicate Linked(nodes: Nodes) {
    && (forall a :: a in nodes ==> UpLink(nodes, a))
    && (forall b :: b in nodes ==> DownLinks(nodes, b))
  }

  ghost predicate ReportsFrom(reports: seq<Report>, known: set<Id>) {
    && (forall i :: 0 <= i < |reports| ==> reports[i].sender in known)
    && (forall i, j :: 0 <= i < j < |reports| ==> reports[i].sender != reports[j].sender)
  }

  ghost predicate Reported(nodes: Nodes) {
    forall n :: n in nodes ==> ReportsFrom(nodes[n].reports, nodes.Keys)
  }

  ghost predicate Names(s: Table, nodes: Nodes) {
    |s| == Slots && forall j :: 0 <= j < Slots && s[j].Some? ==> s[j].value in nodes
  }

  // ----- slots

  function Bound(node: Node, slot: nat): Node
    requires slot < Slots
  {
    node.(bits := SetBit(node.bits, slot), numslots := node.numslots + if TestBit(node.bits, slot) then 0 else 1)
  }

  function Unbound(node: Node, slot: nat): Node
    requires slot < Slots
  {
    node.(bits := ClearBit(node.bits, slot), numslots := node.numslots - if TestBit(node.bits, slot) then 1 else 0)
  }

  /** The nodes differ in their slots only. */
  ghost predicate SameButSlots(nodes: Nodes, nodes': Nodes) {
    && nodes'.Keys == nodes.Keys
    && forall n :: n in nodes ==> nodes'[n] == nodes[n].(bits := nodes'[n].bits, numslots := nodes'[n].numslots)
  }

  lemma BindAgrees(slots: Table, nodes: Nodes, n: Id, slot: nat)
    requires slot < Slots && n in nodes && Agrees(slots, nodes) && slots[slot].None?
    ensures Agrees(slots[slot := Some(n)], nodes[n := Bound(nodes[n], slot)])
  {
    var slots', nodes' := slots[slot := Some(n)], nodes[n := Bound(nodes[n], slot)];
    forall m | m in nodes' ensures AgreesAt(slots', m, nodes'[m]) {
      assert AgreesAt(slots, m, nodes[m]);
      if m == n {
        assert !TestBit(nodes[n].bits, slot);
        hide TestBit, SetBit, Count;
        CountWrite(nodes[n].bits, slot, Slots);
        forall j | 0 <= j < Slots ensures TestBit(nodes'[n].bits, j) <==> slots'[j] == Some(n) { WriteBit(nodes[n].bits, slot, j); }
      }
    }
  }

  lemma UnbindAgrees(slots: Table, nodes: Nodes, n: Id, slot: nat)
    requires slot < Slots && n in nodes && Agrees(slots, nodes) && slots[slot] == Some(n)
    ensures Agrees(slots[slot := None], nodes[n := Unbound(nodes[n], slot)])
  {
    var slots', nodes' := slots[slot := None], nodes[n := Unbound(nodes[n], slot)];
    forall m | m in nodes' ensures AgreesAt(slots', m, nodes'[m]) {
      assert AgreesAt(slots, m, nodes[m]);
      if m == n {
        assert TestBit(nodes[n].bits, slot);
        hide TestBit, ClearBit, Count;
        CountWrite(nodes[n].bits, slot, Slots);
        forall j | 0 <= j < Slots ensures TestBit(nodes'[n].bits, j) <==> slots'[j] == Some(n) { WriteBit(nodes[n].bits, slot, j); }
      }
    }
  }

  /** A node's counter is zero exactly when no slot names it. */
  lemma NoSlots(slots: Table, nodes: Nodes, n: Id)
    requires n in nodes && Agrees(slots, nodes)
    ensures nodes[n].numslots == 0 <==> Some(n) !in slots
  {
    hide Count, TestBit;
    assert AgreesAt(slots, n, nodes[n]);
    CountZero(nodes[n].bits, Slots);
    if nodes[n].numslots != 0 {
      var j :| 0 <= j < Slots && TestBit(nodes[n].bits, j);
      assert slots[j] == Some(n);
    }
  }

  /** A node's counter is the size of the table exactly when every slot names it. */
  lemma EverySlot(slots: Table, nodes: Nodes, n: Id)
    requires n in nodes && Agrees(slots, nodes)
    ensures nodes[n].numslots == Slots <==> forall j :: 0 <= j < Slots ==> slots[j] == Some(n)
  {
    hide Count, TestBit;
    assert AgreesAt(slots, n, nodes[n]);
    CountFull(nodes[n].bits, Slots);
  }

  /** The table determines the bitmaps and counters. */
  lemma TableDetermines(slots: Table, nodes: Nodes, nodes': Nodes)
    requires Agrees(slots, nodes) && Agrees(slots, nodes') && SameButSlots(nodes, nodes')
    ensures nodes == nodes'
  {
    hide TestBit, Count;
    forall n | n in nodes ensures nodes[n] == nodes'[n] {
      assert AgreesAt(slots, n, nodes[n]) && AgreesAt(slots, n, nodes'[n]);
      SameBits(nodes[n].bits, nodes'[n].bits);
    }
  }

  lemma SameButSlotsLinks(nodes: Nodes, nodes': Nodes)
    requires SameButSlots(nodes, nodes') && Linked(nodes) && Reported(nodes)
    ensures Linked(nodes') && Reported(nodes')
  {
    forall a | a in nodes' ensures UpLink(nodes', a) {
      assert UpLink(nodes, a);
      match nodes[a].slaveof {
        case None =>
        case Some(b) => assert b in nodes && nodes'[b] == nodes[b].(bits := nodes'[b].bits, numslots := nodes'[b].numslots);
      }
    }
    forall b | b in nodes' ensures DownLinks(nodes', b) { assert DownLinks(nodes, b); }
  }

  lemma SameButSlotsSelf(nodes: Nodes)
    ensures SameButSlots(nodes, nodes)
  {}

  lemma SameButSlotsKeys(a: Nodes, b: Nodes)
    requires SameButSlots(a, b)
    ensures b.Keys == a.Keys
  {}

  lemma SameButSlotsTrans(a: Nodes, b: Nodes, c: Nodes)
    requires SameButSlots(a, b) && SameButSlots(b, c)
    ensures SameButSlots(a, c)
  {}

  // ----- links

  /** The list with `x` taken out of its first place. */
  function Without(s: seq<Id>, x: Id): seq<Id> {
    if s == [] then [] else if s[0] == x then s[1..] else [s[0]] + Without(s[1..], x)
  }

  lemma {:induction false} WithoutMeaning(s: seq<Id>, x: Id)
    requires Distinct(s)
    ensures Distinct(Without(s, x))
    ensures forall y :: y in Without(s, x) <==> y in s && y != x
  {
    hide Distinct;
    if s != [] {
      var rest := s[1..];
      DistinctHead(s);
      WithoutMeaning(rest, x);
      if s[0] != x { DistinctCons(s[0], Without(rest, x)); }
    }
  }

  lemma DistinctHead(s: seq<Id>)
    requires Distinct(s) && s != []
    ensures Distinct(s[1..]) && s[0] !in s[1..] && forall y :: y in s <==> y == s[0] || y in s[1..]
  {
    assert s == [s[0]] + s[1..];
  }

  lemma DistinctCons(y: Id, s: seq<Id>)
    requires Distinct(s) && y !in s
    ensures Distinct([y] + s)
  {
    forall k | 0 < k < |s| + 1 ensures ([y] + s)[k] in s {}
  }

  /** The first place of `x`, taken out by position. */
  lemma {:induction false} WithoutAt(s: seq<Id>, x: Id, j: nat)
    requires j < |s| && s[j] == x && x !in s[..j]
    ensures Without(s, x) == s[..j] + s[j + 1..]
  {
    if j > 0 {
      assert s[0] in s[..j];
      assert s[1..][..j - 1] == s[..j][1..];
      WithoutAt(s[1..], x, j - 1);
      assert [s[0]] + (s[1..][..j - 1] + s[1..][j..]) == s[..j] + s[j + 1..];
    }
  }

  lemma {:induction false} WithoutAbsent(s: seq<Id>, x: Id)
    requires x !in s
    ensures Without(s, x) == s
  {
    if s != [] { WithoutAbsent(s[1..], x); }
  }

  /** `a` is taken out of its master's list and has no master. */
  function Unlinked(nodes: Nodes, a: Id): Nodes
    requires a in nodes && (nodes[a].slaveof.Some? ==> nodes[a].slaveof.value in nodes)
  {
    match nodes[a].slaveof
    case None => nodes
    case Some(b) =>
      var m := nodes[b := nodes[b].(slaves := Without(nodes[b].slaves, a))];
      m[a := m[a].(slaveof := None)]
  }

  function LinkedTo(nodes: Nodes, a: Id, b: Id): Nodes
    requires a in nodes && b in nodes
  {
    var m := nodes[a := nodes[a].(slaveof := Some(b))];
    m[b := m[b].(slaves := if a in m[b].slaves then m[b].slaves else m[b].slaves + [a])]
  }

  lemma UnlinkedLinks(nodes: Nodes, a: Id)
    requires Linked(nodes) && a in nodes && (nodes[a].slaveof.Some? ==> nodes[a].slaveof.value in nodes)
    ensures Linked(Unlinked(nodes, a))
    ensures Unlinked(nodes, a).Keys == nodes.Keys && Unlinked(nodes, a)[a].slaveof == None
    ensures forall n :: n in nodes ==> a !in Unlinked(nodes, a)[n].slaves
  {
    assert UpLink(nodes, a);
    if nodes[a].slaveof.Some? {
      var b := nodes[a].slaveof.value;
      assert DownLinks(nodes, b);
      WithoutMeaning(nodes[b].slaves, a);
      hide Without;
      var nodes' := Unlinked(nodes, a);
      forall n | n in nodes' ensures UpLink(nodes', n) { assert UpLink(nodes, n); }
      forall n | n in nodes' ensures DownLinks(nodes', n) && a !in nodes'[n].slaves { assert DownLinks(nodes, n); }
    } else {
      forall n | n in nodes ensures a !in nodes[n].slaves { assert DownLinks(nodes, n); }
    }
  }

  lemma LinkedToLinks(nodes: Nodes, a: Id, b: Id)
    requires Linked(nodes) && a in nodes && b in nodes
    requires nodes[a].slaveof == None && nodes[a].slave && !nodes[a].master
    ensures Linked(LinkedTo(nodes, a, b)) && LinkedTo(nodes, a, b).Keys == nodes.Keys
  {
    assert DownLinks(nodes, b);
    var nodes' := LinkedTo(nodes, a, b);
    assert a !in nodes[b].slaves;
    forall n | n in nodes' ensures UpLink(nodes', n) { assert UpLink(nodes, n); }
    forall n | n in nodes' ensures DownLinks(nodes', n) { assert DownLinks(nodes, n); }
  }

  // ----- roles

  function AsMaster(nodes: Nodes, n: Id): Nodes
    requires n in nodes && UpLinkKnown(nodes, n)
  {
    if nodes[n].master then nodes
    else var m := Unlinked(nodes, n); m[n := m[n].(slave := false, master := true)]
  }

  predicate UpLinkKnown(nodes: Nodes, n: Id)
    requires n in nodes
  {
    nodes[n].slaveof.Some? ==> nodes[n].slaveof.value in nodes
  }

  function AsSlave(nodes: Nodes, a: Id, b: Id): Nodes
    requires a in nodes && b in nodes && UpLinkKnown(nodes, a)
  {
    LinkedTo(Freed(nodes, a), a, b)
  }

  /** A slave without a master. */
  function Freed(nodes: Nodes, a: Id): Nodes
    requires a in nodes && UpLinkKnown(nodes, a)
  {
    var m := Unlinked(nodes, a);
    m[a := m[a].(master := false, slave := true)]
  }

  /** The nodes keep their slots and reports. */
  ghost predicate SameButLinks(nodes: Nodes, nodes': Nodes) {
    && nodes'.Keys == nodes.Keys
    && forall n :: n in nodes ==>
         nodes'[n] == nodes[n].(master := nodes'[n].master, slave := nodes'[n].slave, slaveof := nodes'[n].slaveof, slaves := nodes'[n].slaves)
  }

  lemma SameButLinksNames(s: Table, nodes: Nodes, nodes': Nodes)
    requires SameButLinks(nodes, nodes') && Names(s, nodes)
    ensures nodes'.Keys == nodes.Keys && Names(s, nodes')
  {}

  lemma SameButLinksAgrees(slots: Table, nodes: Nodes, nodes': Nodes)
    requires SameButLinks(nodes, nodes') && Agrees(slots, nodes) && Reported(nodes)
    ensures Agrees(slots, nodes') && Reported(nodes')
  {
    hide TestBit, Count;
    forall n | n in nodes' ensures AgreesAt(slots, n, nodes'[n]) { assert AgreesAt(slots, n, nodes[n]); }
  }

  lemma FlagsLinks(nodes: Nodes, n: Id, master: bool, slave: bool)
    requires n in nodes && Linked(nodes) && nodes[n].slaveof == None
    ensures Linked(nodes[n := nodes[n].(master := master, slave := slave)])
  {
    var nodes' := nodes[n := nodes[n].(master := master, slave := slave)];
    forall a | a in nodes' ensures UpLink(nodes', a) { assert UpLink(nodes, a); }
    forall b | b in nodes' ensures DownLinks(nodes', b) { assert DownLinks(nodes, b); }
  }

  ghost predicate SameFlags(nodes: Nodes, nodes': Nodes, except: Id) {
    forall x :: x in nodes && x in nodes' && x != except ==> nodes'[x].master == nodes[x].master && nodes'[x].slave == nodes[x].slave
  }

  lemma UnlinkedSame(nodes: Nodes, a: Id)
    requires a in nodes && UpLinkKnown(nodes, a)
    ensures SameButLinks(nodes, Unlinked(nodes, a)) && SameFlags(nodes, Unlinked(nodes, a), a)
  {
    hide Without;
  }

  lemma LinkedToSame(nodes: Nodes, a: Id, b: Id)
    requires a in nodes && b in nodes
    ensures SameButLinks(nodes, LinkedTo(nodes, a, b)) && SameFlags(nodes, LinkedTo(nodes, a, b), a)
    ensures LinkedTo(nodes, a, b)[a].master == nodes[a].master && LinkedTo(nodes, a, b)[a].slave == nodes[a].slave
    ensures LinkedTo(nodes, a, b)[a].slaveof == Some(b)
  {}

  lemma FlagsSame(nodes: Nodes, n: Id, master: bool, slave: bool)
    requires n in nodes
    ensures SameButLinks(nodes, nodes[n := nodes[n].(master := master, slave := slave)])
  {}

  lemma AsMasterSame(nodes: Nodes, n: Id)
    requires n in nodes && UpLinkKnown(nodes, n)
    ensures SameButLinks(nodes, AsMaster(nodes, n)) && SameFlags(nodes, AsMaster(nodes, n), n)
    ensures AsMaster(nodes, n)[n].master && (!nodes[n].master ==> !AsMaster(nodes, n)[n].slave)
  {
    UnlinkedSame(nodes, n);
    hide Unlinked;
  }

  lemma AsMasterLinks(slots: Table, nodes: Nodes, n: Id)
    requires n in nodes && UpLinkKnown(nodes, n)
    requires Agrees(slots, nodes) && Linked(nodes) && Reported(nodes)
    ensures Agrees(slots, AsMaster(nodes, n)) && Linked(AsMaster(nodes, n)) && Reported(AsMaster(nodes, n))
  {
    UnlinkedLinks(nodes, n);
    AsMasterSame(nodes, n);
    hide Linked, Agrees, Reported, Unlinked, SameButLinks, SameFlags;
    if !nodes[n].master { FlagsLinks(Unlinked(nodes, n), n, true, false); }
    SameButLinksAgrees(slots, nodes, AsMaster(nodes, n));
  }

  lemma AsSlaveSame(nodes: Nodes, a: Id, b: Id)
    requires a in nodes && b in nodes && UpLinkKnown(nodes, a)
    ensures SameButLinks(nodes, AsSlave(nodes, a, b)) && SameFlags(nodes, AsSlave(nodes, a, b), a)
    ensures AsSlave(nodes, a, b)[a].slave && !AsSlave(nodes, a, b)[a].master && AsSlave(nodes, a, b)[a].slaveof == Some(b)
  {
    UnlinkedSame(nodes, a);
    var m := Unlinked(nodes, a);
    var m' := Freed(nodes, a);
    hide Unlinked, LinkedTo;
    LinkedToSame(m', a, b);
    FlagsSame(m, a, false, true);
  }

  lemma AsSlaveLinks(slots: Table, nodes: Nodes, a: Id, b: Id)
    requires a in nodes && b in nodes && UpLinkKnown(nodes, a)
    requires Agrees(slots, nodes) && Linked(nodes) && Reported(nodes)
    ensures Agrees(slots, AsSlave(nodes, a, b)) && Linked(AsSlave(nodes, a, b)) && Reported(AsSlave(nodes, a, b))
  {
    AsSlaveSame(nodes, a, b);
    UnlinkedLinks(nodes, a);
    var m := Unlinked(nodes, a);
    var m' := Freed(nodes, a);
    hide Linked, Agrees, Reported, Unlinked, LinkedTo, SameButLinks, SameFlags;
    FlagsLinks(m, a, false, true);
    LinkedToLinks(m', a, b);
    SameButLinksAgrees(slots, nodes, AsSlave(nodes, a, b));
  }

  // ----- the same, step by step as the server does it

  function Removed(nodes: Nodes, b: Id, a: Id): Nodes
    requires b in nodes
  {
    nodes[b := nodes[b].(slaves := Without(nodes[b].slaves, a))]
  }

  function Added(nodes: Nodes, b: Id, a: Id): Nodes
    requires b in nodes
  {
    nodes[b := nodes[b].(slaves := if a in nodes[b].slaves then nodes[b].slaves else nodes[b].slaves + [a])]
  }

  function Leave(nodes: Nodes, a: Id): Nodes
    requires a in nodes && UpLinkKnown(nodes, a)
  {
    if nodes[a].slaveof.Some? then Removed(nodes, nodes[a].slaveof.value, a) else nodes
  }

  lemma LeaveFreed(nodes: Nodes, a: Id, up: Option<Id>)
    requires a in nodes && UpLinkKnown(nodes, a) && nodes[a].slave && !nodes[a].master
    ensures var m, f := Leave(nodes, a), Freed(nodes, a); m[a := m[a].(slaveof := up)] == f[a := f[a].(slaveof := up)]
    ensures Leave(nodes, a).Keys == Freed(nodes, a).Keys == nodes.Keys
  {
    hide Without;
  }

  lemma AddedLinked(nodes: Nodes, a: Id, b: Id)
    requires a in nodes && b in nodes
    ensures Added(nodes, b, a)[a := Added(nodes, b, a)[a].(slaveof := Some(b))] == LinkedTo(nodes, a, b)
    ensures LinkedTo(nodes[a := nodes[a].(slaveof := Some(b))], a, b) == LinkedTo(nodes, a, b)
    ensures Added(nodes[a := nodes[a].(slaveof := Some(b))], b, a) == LinkedTo(nodes, a, b)
  {}

  lemma FollowSteps(nodes: Nodes, a: Id, b: Id)
    requires a in nodes && b in nodes && UpLinkKnown(nodes, a) && nodes[a].slave && !nodes[a].master
    ensures var m := Added(Leave(nodes, a), b, a); m[a := m[a].(slaveof := Some(b))] == AsSlave(nodes, a, b)
    ensures var m := Leave(nodes, a); Added(m[a := m[a].(slaveof := Some(b))], b, a) == AsSlave(nodes, a, b)
  {
    LeaveFreed(nodes, a, Some(b));
    var m, f := Leave(nodes, a), Freed(nodes, a);
    hide Leave, Freed;
    AddedLinked(m, a, b);
    AddedLinked(f, a, b);
    hide Added, LinkedTo;
  }

  /** Before it follows another node, a master becomes a slave and a slave leaves its master. */
  function Ready(nodes: Nodes, a: Id): Nodes
    requires a in nodes && UpLinkKnown(nodes, a)
  {
    if nodes[a].master then nodes[a := nodes[a].(master := false, slave := true)] else Leave(nodes, a)
  }

  lemma SetMasterSteps(nodes: Nodes, a: Id, b: Id)
    requires a in nodes && b in nodes && UpLinkKnown(nodes, a) && nodes[a].slave != nodes[a].master
    requires nodes[a].master ==> nodes[a].slaveof == None
    ensures a in Ready(nodes, a) && b in Ready(nodes, a)
    ensures var m := Ready(nodes, a); Added(m[a := m[a].(slaveof := Some(b))], b, a) == AsSlave(nodes, a, b)
  {
    if nodes[a].master {
      assert Freed(nodes, a) == nodes[a := nodes[a].(master := false, slave := true)];
      AddedLinked(Freed(nodes, a), a, b);
    } else {
      FollowSteps(nodes, a, b);
      LeaveFreed(nodes, a, None);
    }
  }
}
