/**
 The in-place operations on the slot table, the node table and the links between nodes. Each keeps
 `Valid`, so the assertions of clusterDelSlot never fire, and says exactly which slots, links and
 reports it changes.
 */
module ClusterSlots {
  import opened Basics
  import opened Bitmap
  import opened SlotTable
  import opened ClusterNodes

  /** Every slot of `from` is given to `to`; the other slots keep their owner. */
  function Replaced(slots: Table, from: Option<Id>, to: Option<Id>): (r: Table)
    ensures |r| == |slots| && forall j :: 0 <= j < |slots| ==> r[j] == if slots[j] == from then to else slots[j]
  {
    seq(|slots|, j requires 0 <= j < |slots| => if slots[j] == from then to else slots[j])
  }

  // ----- what an update message does to the table

  /** The node an update is about, its config epoch and the slots it claims. */
  datatype Claim = Claim(sender: Id, epoch: nat, bits: Bitmap)

  /** Slot j goes to the sender of an update. */
  predicate Moves(slots: Table, importing: Table, nodes: Nodes, c: Claim, j: nat)
    requires Names(slots, nodes) && |importing| == Slots && j < Slots
  {
    && TestBit(c.bits, j) && slots[j] != Some(c.sender) && importing[j].None?
    && (slots[j].None? || nodes[slots[j].value].configEpoch < c.epoch)
  }

  function Moved(slots: Table, importing: Table, nodes: Nodes, c: Claim): (r: Table)
    requires Names(slots, nodes) && |importing| == Slots
    ensures |r| == Slots
    ensures forall j :: 0 <= j < Slots ==>
              r[j] == if TestBit(c.bits, j) && importing[j].None? && (slots[j].None? || nodes[slots[j].value].configEpoch < c.epoch)
                      then Some(c.sender) else slots[j]
  {
    seq(Slots, j requires 0 <= j < Slots => if Moves(slots, importing, nodes, c, j) then Some(c.sender) else slots[j])
  }

  /** This node or its master loses a slot to the sender; with no known master, a free slot counts. */
  ghost predicate Loses(slots: Table, importing: Table, nodes: Nodes, c: Claim, curmaster: Option<Id>)
    requires Names(slots, nodes) && |importing| == Slots
  {
    exists j :: 0 <= j < Slots && slots[j] == curmaster && Moves(slots, importing, nodes, c, j)
  }

  /** Slot j was this node's and goes to the sender. */
  predicate Lost(slots: Table, importing: Table, nodes: Nodes, c: Claim, myself: Id, j: nat)
    requires Names(slots, nodes) && |importing| == Slots && j < Slots
  {
    slots[j] == Some(myself) && Moves(slots, importing, nodes, c, j)
  }

  /** The keys of the slots that were this node's and no longer are, dropped. */
  function DropKeys(keys: seq<nat>, slots: Table, slots': Table, myself: Id): seq<nat>
    requires |keys| == |slots| == |slots'|
  {
    seq(|keys|, j requires 0 <= j < |keys| => if slots[j] == Some(myself) && slots'[j] != Some(myself) then 0 else keys[j])
  }

  /** The first report of `sender`, at j, is dropped, and then those that are too old. */
  ghost predicate DropsAt(a: seq<Report>, j: nat, sender: Id, b: seq<Report>, at: seq<nat>, now: int, maxtime: int) {
    && j < |a| && a[j].sender == sender && (forall i :: 0 <= i < j ==> a[i].sender != sender)
    && Picks(a[..j] + a[j + 1..], b, at, now, maxtime)
  }

  /** The first place of `x` is cut out. */
  ghost predicate LosesFirst(a: seq<Id>, b: seq<Id>, x: Id) {
    exists j :: 0 <= j < |a| && a[j] == x && x !in a[..j] && b == a[..j] + a[j + 1..]
  }

  /** Apart from slots, the only change is that `a` becomes a slave of `b`. */
  ghost predicate TakesMaster(nodes: Nodes, nodes': Nodes, a: Id, b: Id) {
    exists mid: Nodes :: SameButSlots(nodes, mid) && a in mid && b in mid && UpLinkKnown(mid, a) && nodes' == AsSlave(mid, a, b)
  }

  datatype Outcome = Finished | Demoted | Crashed

  class Cluster {
    var myself: Id
    var slots: Table
    var importing: Table
    var migrating: Table
    var keys: seq<nat>
    var nodes: Nodes

    ghost predicate Valid()
      reads this
    {
      && myself in nodes && nodes[myself].master != nodes[myself].slave && |slots| == |importing| == |migrating| == |keys| == Slots
      && Agrees(slots, nodes) && Names(importing, nodes) && Names(migrating, nodes)
      && Linked(nodes) && Reported(nodes)
    }

    /** A new node knows only itself, a master without slots. */
    constructor (me: Id)
      ensures Valid() && myself == me && nodes == map[me := NewNode(true)]
      ensures slots == importing == migrating == seq(Slots, _ => None) && keys == seq(Slots, _ => 0)
    {
      myself := me;
      slots, importing, migrating := seq(Slots, _ => None), seq(Slots, _ => None), seq(Slots, _ => None);
      keys := seq(Slots, _ => 0);
      nodes := map[me := NewNode(true)];
      new;
      NewNodeAgrees(seq(Slots, _ => None), map[], me, true);
    }

    /** createClusterNode and clusterAddNode; an unknown name only. */
    method AddNode(n: Id)
      requires Valid() && n !in nodes
      modifies this`nodes
      ensures Valid() && nodes == old(nodes)[n := NewNode(false)]
    {
      hide Agrees, Linked, Reported;
      NewNodeAgrees(slots, nodes, n, false);
      nodes := nodes[n := NewNode(false)];
    }

    function CurMaster(): Option<Id>
      requires myself in nodes
      reads this
    {
      if nodes[myself].master then Some(myself) else nodes[myself].slaveof
    }

    // ----- slots

    method AddSlot(n: Id, slot: nat) returns (ok: bool)
      requires Valid() && n in nodes && slot < Slots
      modifies this`slots, this`nodes
      ensures Valid() && SameButSlots(old(nodes), nodes)
      ensures ok == old(slots)[slot].None?
      ensures slots == if ok then old(slots)[slot := Some(n)] else old(slots)
    {
      hide TestBit, SetBit, Linked, Reported;
      if slots[slot].Some? { return false; }
      BindAgrees(slots, nodes, n, slot);
      nodes := nodes[n := Bound(nodes[n], slot)];
      slots := slots[slot := Some(n)];
      assert SameButSlots(old(nodes), nodes);
      hide Agrees;
      SameButSlotsLinks(old(nodes), nodes);
      ok := true;
    }

    method DelSlot(slot: nat) returns (ok: bool)
      requires Valid() && slot < Slots
      modifies this`slots, this`nodes
      ensures Valid() && SameButSlots(old(nodes), nodes)
      ensures ok == old(slots)[slot].Some?
      ensures slots == old(slots)[slot := None]
    {
      hide TestBit, ClearBit, Linked, Reported;
      if slots[slot].None? { return false; }
      var n := slots[slot].value;
      assert TestBit(nodes[n].bits, slot) by { assert AgreesAt(slots, n, nodes[n]); }   // the server's assertion
      UnbindAgrees(slots, nodes, n, slot);
      nodes := nodes[n := Unbound(nodes[n], slot)];
      slots := slots[slot := None];
      assert SameButSlots(old(nodes), nodes);
      hide Agrees;
      SameButSlotsLinks(old(nodes), nodes);
      ok := true;
    }

    /** clusterDelSlot followed by clusterAddSlot. */
    method GiveSlot(n: Id, slot: nat)
      requires Valid() && n in nodes && slot < Slots
      modifies this`slots, this`nodes
      ensures Valid() && SameButSlots(old(nodes), nodes)
      ensures slots == old(slots)[slot := Some(n)]
    {
      hide Agrees, Linked, Reported;
      var _ := DelSlot(slot);
      ghost var between := nodes;
      var _ := AddSlot(n, slot);
      SameButSlotsTrans(old(nodes), between, nodes);
    }

    /** The number returned is the number of slots tried; it is the number of slots deleted only if the node had them all. */
    method DelNodeSlots(n: Id) returns (deleted: nat)
      requires Valid() && n in nodes
      modifies this`slots, this`nodes
      ensures Valid() && SameButSlots(old(nodes), nodes)
      ensures slots == Replaced(old(slots), Some(n), None)
      ensures nodes[n].numslots == 0 && deleted == Slots
      ensures deleted == old(nodes)[n].numslots <==> forall j :: 0 <= j < Slots ==> old(slots)[j] == Some(n)
    {
      hide TestBit, Agrees, Linked, Reported;
      EverySlot(slots, nodes, n);
      deleted := 0;
      var j := 0;
      while j < Slots
        invariant 0 <= j == deleted <= Slots && |slots| == |old(slots)| == Slots
        invariant Valid() && SameButSlots(old(nodes), nodes)
        invariant forall k :: 0 <= k < j ==> slots[k] == if old(slots)[k] == Some(n) then None else old(slots)[k]
        invariant forall k :: j <= k < Slots ==> slots[k] == old(slots)[k]
      {
        OwnerBit(slots, nodes, n, j);
        if TestBit(nodes[n].bits, j) {
          ghost var before := nodes;
          var _ := DelSlot(j);
          SameButSlotsTrans(old(nodes), before, nodes);
        }
        j := j + 1;
        deleted := deleted + 1;
      }
      NoSlots(slots, nodes, n);
    }

    // ----- reports and links

    /** Returns whether the slave was in the list. */
    method RemoveSlave(master: Id, slave: Id) returns (ok: bool)
      requires master in nodes
      modifies this`nodes
      ensures ok == (slave in old(nodes)[master].slaves)
      // only the master's list changes: it loses the slave at its first place
      ensures nodes.Keys == old(nodes).Keys && nodes == old(nodes)[master := old(nodes)[master].(slaves := nodes[master].slaves)]
      ensures ok ==> LosesFirst(old(nodes)[master].slaves, nodes[master].slaves, slave)
      ensures !ok ==> nodes == old(nodes)
      ensures nodes == Removed(old(nodes), master, slave)
    {
      var s := nodes[master].slaves;
      var j := 0;
      while j < |s|
        invariant j <= |s| && slave !in s[..j]
        invariant nodes == old(nodes)
      {
        if s[j] == slave {
          WithoutAt(s, slave, j);
          nodes := nodes[master := nodes[master].(slaves := s[..j] + s[j + 1..])];
          return true;
        }
        j := j + 1;
      }
      assert s[..j] == s;
      WithoutAbsent(s, slave);
      assert nodes[master].(slaves := s) == nodes[master];
      ok := false;
    }

    method AddSlave(master: Id, slave: Id) returns (ok: bool)
      requires master in nodes
      modifies this`nodes
      ensures ok == (slave !in old(nodes)[master].slaves)
      ensures nodes == if ok then old(nodes)[master := old(nodes)[master].(slaves := old(nodes)[master].slaves + [slave])] else old(nodes)
      ensures nodes == Added(old(nodes), master, slave)
    {
      var s := nodes[master].slaves;
      var j := 0;
      while j < |s|
        invariant j <= |s| && slave !in s[..j]
        invariant nodes == old(nodes)
      {
        if s[j] == slave {
          assert nodes[master].(slaves := s) == nodes[master];
          return false;
        }
        j := j + 1;
      }
      assert s[..j] == s;
      nodes := nodes[master := nodes[master].(slaves := s + [slave])];
      ok := true;
    }

    method SetNodeAsMaster(n: Id)
      requires Valid() && n in nodes
      modifies this`nodes
      // it is a master without a master; of the other nodes at most the list of slaves changes, as Valid demands
      ensures old(nodes)[n].master ==> nodes == old(nodes)
      ensures nodes.Keys == old(nodes).Keys && nodes[n].master && (!old(nodes)[n].master ==> !nodes[n].slave && nodes[n].slaveof == None)
      ensures forall x :: x in nodes && x != n ==> nodes[x] == old(nodes)[x].(slaves := nodes[x].slaves)
      ensures nodes[n] == old(nodes)[n].(master := true, slave := nodes[n].slave, slaveof := nodes[n].slaveof, slaves := nodes[n].slaves)
      ensures Valid() && nodes == AsMaster(old(nodes), n)
    {
      hide SameButLinks, Agrees, Linked, Reported, Names;
      LinkedKnown(nodes, n);
      AsMasterLinks(slots, nodes, n);
      AsMasterSame(nodes, n);
      SameButLinksNames(importing, nodes, AsMaster(nodes, n));
      SameButLinksNames(migrating, nodes, AsMaster(nodes, n));
      if nodes[n].master { return; }
      if nodes[n].slaveof.Some? {
        var _ := RemoveSlave(nodes[n].slaveof.value, n);
      }
      nodes := nodes[n := nodes[n].(slave := false, master := true, slaveof := None)];
      assert nodes == AsMaster(old(nodes), n);
    }

    method CloseAllSlots()
      modifies this`importing, this`migrating
      ensures importing == migrating == seq(Slots, _ => None)
    {
      migrating := seq(Slots, _ => None);
      importing := seq(Slots, _ => None);
    }

    /** The server aborts unless n is another node and this node owns no slot. */
    method SetMaster(n: Id)
      requires Valid() && n in nodes && n != myself && nodes[myself].numslots == 0
      modifies this`nodes, this`importing, this`migrating
      // it is a slave of n; of the other nodes at most the list of slaves changes, as Valid demands
      ensures nodes.Keys == old(nodes).Keys
      ensures nodes[myself] == old(nodes)[myself].(master := false, slave := true, slaveof := Some(n), slaves := nodes[myself].slaves)
      ensures forall x :: x in nodes && x != myself ==> nodes[x] == old(nodes)[x].(slaves := nodes[x].slaves)
      ensures Valid() && nodes == AsSlave(old(nodes), myself, n)
      ensures if old(nodes)[myself].master then importing == migrating == seq(Slots, _ => None)
              else importing == old(importing) && migrating == old(migrating)
    {
      hide Agrees, Linked, Reported, LosesFirst;
      LinkedKnown(nodes, myself);
      AsSlaveLinks(slots, nodes, myself, n);
      AsSlaveUp(nodes, myself, n);
      if nodes[myself].master { LinkedMaster(nodes, myself); }
      SetMasterSteps(nodes, myself, n);
      hide SameFlags, AsSlave, Added, Removed;
      if nodes[myself].master {
        nodes := nodes[myself := nodes[myself].(master := false, slave := true)];
        CloseAllSlots();
      } else {
        if nodes[myself].slaveof.Some? {
          var _ := RemoveSlave(nodes[myself].slaveof.value, myself);
        }
      }
      assert nodes == Ready(old(nodes), myself);
      hide Ready;
      nodes := nodes[myself := nodes[myself].(slaveof := Some(n))];
      var _ := AddSlave(n, myself);
    }

    // ----- updates from other nodes

    /** One slot of the loop below, when the table at first was slots0 with nodes0. */
    method RebindSlot(c: Claim, j: nat, ghost slots0: Table, ghost nodes0: Nodes) returns (moved: bool)
      requires Valid() && c.sender in nodes0 && j < Slots && SameButSlots(nodes0, nodes) && Names(slots, nodes) && Names(slots0, nodes0)
      requires slots[j] == slots0[j]
      modifies this`slots, this`nodes
      ensures Valid() && SameButSlots(nodes0, nodes) && Names(slots, nodes)
      ensures moved == Moves(slots0, importing, nodes0, c, j)
      ensures slots == if moved then old(slots)[j := Some(c.sender)] else old(slots)
    {
      hide TestBit, Agrees, Linked, Reported, Moves, SameButSlots;
      MovesNow(slots0, slots, importing, nodes0, nodes, c, j);
      SameButSlotsKeys(nodes0, nodes);
      moved := TestBit(c.bits, j) && slots[j] != Some(c.sender) && importing[j].None?
               && (slots[j].None? || nodes[slots[j].value].configEpoch < c.epoch);
      if moved {
        ghost var before := nodes;
        GiveSlot(c.sender, j);
        SameButSlotsTrans(nodes0, before, nodes);
        AgreesNames(slots, nodes);
      }
    }

    /** The loop of clusterUpdateSlotsConfigWith. */
    method Rebind(c: Claim, curmaster: Option<Id>) returns (newmaster: bool, dirty: seq<nat>)
      requires Valid() && c.sender in nodes && c.sender != myself
      modifies this`slots, this`nodes
      ensures Valid() && SameButSlots(old(nodes), nodes)
      ensures slots == Moved(old(slots), importing, old(nodes), c)
      ensures newmaster <==> exists j :: 0 <= j < Slots && old(slots)[j] == curmaster && old(slots)[j] != Some(c.sender) && slots[j] == Some(c.sender)
      ensures forall k :: k in dirty <==> 0 <= k < Slots && keys[k] != 0 && old(slots)[k] == Some(myself) && slots[k] == Some(c.sender)
      ensures newmaster <==> Loses(old(slots), importing, old(nodes), c, curmaster)
      ensures forall k :: k in dirty <==> 0 <= k < Slots && keys[k] != 0 && Lost(old(slots), importing, old(nodes), c, myself, k)
    {
      hide TestBit, Agrees, Linked, Reported, Moves, Names, SameButSlots;
      AgreesNames(slots, nodes);
      SameButSlotsSelf(nodes);
      newmaster, dirty := false, [];
      var j := 0;
      while j < Slots
        invariant 0 <= j <= Slots && Valid() && SameButSlots(old(nodes), nodes)
        invariant Names(slots, nodes) && Names(old(slots), old(nodes))
        invariant forall k :: 0 <= k < j ==>
          slots[k] == if Moves(old(slots), importing, old(nodes), c, k) then Some(c.sender) else old(slots)[k]
        invariant forall k :: j <= k < Slots ==> slots[k] == old(slots)[k]
        invariant newmaster <==> exists k :: 0 <= k < j && old(slots)[k] == curmaster && Moves(old(slots), importing, old(nodes), c, k)
        invariant forall k :: k in dirty <==> 0 <= k < j && keys[k] != 0 && Lost(old(slots), importing, old(nodes), c, myself, k)
      {
        var owner := slots[j];
        var moved := RebindSlot(c, j, old(slots), old(nodes));
        if moved {
          if owner == Some(myself) && keys[j] != 0 { dirty := dirty + [j]; }
          if owner == curmaster { newmaster := true; }
        }
        j := j + 1;
      }
      forall k: nat | k < Slots
        ensures Moves(old(slots), importing, old(nodes), c, k) <==> old(slots)[k] != Some(c.sender) && slots[k] == Some(c.sender)
      {
        MovesKnown(old(slots), importing, old(nodes), c, k);
      }
    }

    method DropKeysIn(dirty: seq<nat>)
      requires |keys| == Slots && forall k :: k in dirty ==> k < Slots
      modifies this`keys
      ensures |keys| == Slots
      ensures forall k :: 0 <= k < Slots ==> keys[k] == if k in dirty then 0 else old(keys)[k]
    {
      var i := 0;
      while i < |dirty|
        invariant i <= |dirty| && |keys| == Slots
        invariant forall k :: 0 <= k < Slots ==> keys[k] == if k in dirty[..i] then 0 else old(keys)[k]
      {
        assert dirty[i] in dirty;
        keys := keys[dirty[i] := 0];
        i := i + 1;
      }
      assert dirty[..i] == dirty;
    }

    /** Slots go to the sender exactly when Moves says so. A node that loses its last slot, or whose
        master does, becomes the sender's slave; otherwise it drops the keys of the slots it lost. */
    method UpdateSlotsConfigWith(c: Claim) returns (r: Outcome)
      requires Valid() && c.sender in nodes
      modifies this`slots, this`nodes, this`importing, this`migrating, this`keys
      ensures c.sender == myself ==> r == Finished && slots == old(slots) && nodes == old(nodes)
      // a claimed slot moves if it is not imported and is free, or held with a smaller epoch; no other does
      ensures |slots| == Slots && Names(old(slots), old(nodes)) && |old(importing)| == Slots
      ensures c.sender != myself ==> forall j :: 0 <= j < Slots ==>
                slots[j] == if TestBit(c.bits, j) && old(importing)[j].None?
                               && (old(slots)[j].None? || old(nodes)[old(slots)[j].value].configEpoch < c.epoch)
                            then Some(c.sender) else old(slots)[j]
      // this node is demoted if it, or its master, thereby lost the last slot, and the server stops if it is then not ready for that
      ensures r != Finished <==>
                && c.sender != myself
                && (exists j :: 0 <= j < Slots && old(slots)[j] == old(CurMaster()) && old(slots)[j] != Some(c.sender) && slots[j] == Some(c.sender))
                && (old(CurMaster()).None? || old(CurMaster()) !in slots)
      ensures r.Crashed? <==> r != Finished && (old(CurMaster()).None? || Some(myself) in slots)
      ensures r.Finished? ==> |keys| == |old(keys)| && forall j :: 0 <= j < |keys| ==>
                keys[j] == if old(slots)[j] == Some(myself) && slots[j] != Some(myself) then 0 else old(keys)[j]
      ensures r.Demoted? ==> nodes.Keys == old(nodes).Keys && nodes[myself].slave && !nodes[myself].master && nodes[myself].slaveof == Some(c.sender)
      ensures r.Demoted? ==> forall x :: x in nodes && x != myself ==>
                nodes[x] == old(nodes)[x].(slaves := nodes[x].slaves, bits := nodes[x].bits, numslots := nodes[x].numslots)
      ensures c.sender != myself ==> slots == Moved(old(slots), old(importing), old(nodes), c)
      ensures r.Crashed? <==>
                c.sender != myself && Loses(old(slots), old(importing), old(nodes), c, old(CurMaster()))
                && (old(CurMaster()).None? || (old(CurMaster()) !in slots && Some(myself) in slots))
      ensures r.Demoted? <==>
                c.sender != myself && Loses(old(slots), old(importing), old(nodes), c, old(CurMaster()))
                && old(CurMaster()).Some? && old(CurMaster()) !in slots && Some(myself) !in slots
      ensures !r.Crashed? ==> Valid()
      ensures !r.Demoted? ==> SameButSlots(old(nodes), nodes) && importing == old(importing) && migrating == old(migrating)
      ensures r.Finished? ==> keys == DropKeys(old(keys), old(slots), slots, myself)
      ensures r.Demoted? ==> keys == old(keys) && TakesMaster(old(nodes), nodes, myself, c.sender)
      ensures r.Demoted? && old(nodes)[myself].master ==> importing == migrating == seq(Slots, _ => None)
      ensures r.Demoted? && !old(nodes)[myself].master ==> importing == old(importing) && migrating == old(migrating)
    {
      hide TestBit, Agrees, Linked, Reported, Moves, Names, AsSlave;
      AgreesNames(slots, nodes);
      var curmaster := CurMaster();
      if c.sender == myself {
        return Finished;
      }
      var newmaster, dirty := Rebind(c, curmaster);
      ghost var mid := nodes;
      if newmaster && curmaster.None? {
        return Crashed;
      }
      if newmaster {
        LinkedKnown(nodes, myself);
        NoSlots(slots, nodes, curmaster.value);
      }
      NoSlots(slots, nodes, myself);
      if newmaster && nodes[curmaster.value].numslots == 0 {
        if nodes[myself].numslots != 0 {
          return Crashed;
        }
        assert UpLinkKnown(mid, myself) by { LinkedKnown(mid, myself); }
        SetMaster(c.sender);
        return Demoted;
      } else if |dirty| != 0 {
        DropKeysIn(dirty);
      }
      r := Finished;
    }

    /** A slave that won its election takes over all the slots of its master. */
    method FailoverReplaceYourMaster()
      requires Valid()
      modifies this`slots, this`nodes
      ensures Valid()
      ensures !old(nodes)[myself].master && old(nodes)[myself].slaveof.Some? ==>
                && nodes[myself].master && !nodes[myself].slave && nodes[myself].slaveof == None
                && forall j :: 0 <= j < Slots ==> slots[j] == if old(slots)[j] == old(nodes)[myself].slaveof then Some(myself) else old(slots)[j]
      ensures if old(nodes)[myself].master || old(nodes)[myself].slaveof.None? then slots == old(slots) && nodes == old(nodes)
              else && slots == Replaced(old(slots), old(nodes)[myself].slaveof, Some(myself))
                   && SameButSlots(AsMaster(old(nodes), myself), nodes)
                   && (old(nodes)[myself].slaveof != Some(myself) ==> nodes[old(nodes)[myself].slaveof.value].numslots == 0)
    {
      hide TestBit, Agrees, Linked, Reported, Names, AsMaster;
      LinkedKnown(nodes, myself);
      var oldmaster := nodes[myself].slaveof;
      if nodes[myself].master || oldmaster == None { return; }
      AsMasterSame(nodes, myself);
      SetNodeAsMaster(myself);
      ghost var mid := nodes;
      var j := 0;
      while j < Slots
        invariant 0 <= j <= Slots && Valid() && SameButSlots(mid, nodes)
        invariant forall k :: 0 <= k < j ==> slots[k] == if old(slots)[k] == oldmaster then Some(myself) else old(slots)[k]
        invariant forall k :: j <= k < Slots ==> slots[k] == old(slots)[k]
      {
        OwnerBit(slots, nodes, oldmaster.value, j);
        if TestBit(nodes[oldmaster.value].bits, j) {
          ghost var before := nodes;
          GiveSlot(myself, j);
          SameButSlotsTrans(mid, before, nodes);
        }
        j := j + 1;
      }
      NoSlots(slots, nodes, oldmaster.value);
    }

    /** `a` follows `b` instead of its present master. */
    method Follow(a: Id, b: Id)
      requires Valid() && a in nodes && b in nodes && a != myself && nodes[a].slave && !nodes[a].master
      modifies this`nodes
      ensures nodes.Keys == old(nodes).Keys
      ensures nodes[a] == old(nodes)[a].(master := false, slave := true, slaveof := Some(b), slaves := nodes[a].slaves)
      ensures forall x :: x in nodes && x != a ==> nodes[x] == old(nodes)[x].(slaves := nodes[x].slaves)
      ensures Valid() && nodes == AsSlave(old(nodes), a, b)
    {
      hide Agrees, Linked, Reported, LosesFirst;
      LinkedKnown(nodes, a);
      AsSlaveLinks(slots, nodes, a, b);
      AsSlaveUp(nodes, a, b);
      FollowSteps(nodes, a, b);
      hide SameFlags, AsSlave, Added, Removed;
      if nodes[a].slaveof.Some? {
        var _ := RemoveSlave(nodes[a].slaveof.value, a);
      }
      assert nodes == Leave(old(nodes), a);
      hide Leave;
      var _ := AddSlave(b, a);
      nodes := nodes[a := nodes[a].(slaveof := Some(b))];
    }

    /** A packet shows that its sender is a slave, of `master` if that node is known. */
    method SenderIsSlave(sender: Id, master: Option<Id>)
      requires Valid() && sender in nodes && sender != myself && (nodes[sender].master || nodes[sender].slave)
      requires master.Some? ==> master.value in nodes
      modifies this`slots, this`nodes
      ensures Valid() && nodes.Keys == old(nodes).Keys
      ensures slots == if old(nodes)[sender].master then Replaced(old(slots), Some(sender), None) else old(slots)
      ensures nodes[sender].slave && !nodes[sender].master
      ensures nodes[sender].slaveof == if master.Some? then master else old(nodes)[sender].slaveof
      ensures OthersSame(old(nodes), nodes, sender)
    {
      hide Agrees, Linked, Reported, AsSlave, Names;
      if nodes[sender].master {
        var _ := DelNodeSlots(sender);
        Demote(sender);
      }
      if master.Some? && nodes[sender].slaveof != master {
        LinkedKnown(nodes, sender);
        AsSlaveSame(nodes, sender, master.value);
        AsSlaveUp(nodes, sender, master.value);
        Follow(sender, master.value);
      }
    }

    /** Only the flags change. */
    method Demote(n: Id)
      requires Valid() && n in nodes && n != myself && nodes[n].master
      modifies this`nodes
      ensures Valid() && nodes == old(nodes)[n := old(nodes)[n].(master := false, slave := true)] && nodes[n].slaveof == None
    {
      hide Agrees, Linked, Reported;
      LinkedMaster(nodes, n);
      FlagsLinks(nodes, n, false, true);
      FlagsSame(nodes, n, false, true);
      SameButLinksAgrees(slots, nodes, nodes[n := nodes[n].(master := false, slave := true)]);
      nodes := nodes[n := nodes[n].(master := false, slave := true)];
    }

    // ----- failure reports

    method CleanupReports(n: Id, now: int, maxtime: int) returns (ghost at: seq<nat>)
      requires n in nodes
      modifies this`nodes
      ensures nodes.Keys == old(nodes).Keys && nodes == old(nodes)[n := old(nodes)[n].(reports := nodes[n].reports)]
      ensures Picks(old(nodes)[n].reports, nodes[n].reports, at, now, maxtime)
      ensures nodes == old(nodes)[n := old(nodes)[n].(reports := Recent(old(nodes)[n].reports, now, maxtime))]
    {
      var all := nodes[n].reports;
      var kept: seq<Report> := [];
      var i := 0;
      while i < |all|
        invariant i <= |all| && kept == Recent(all[..i], now, maxtime)
        invariant nodes == old(nodes)
      {
        assert all[..i + 1] == all[..i] + [all[i]];
        RecentSnoc(all[..i], all[i], now, maxtime);
        if now - all[i].time <= maxtime { kept := kept + [all[i]]; }
        i := i + 1;
      }
      assert all[..i] == all;
      at := RecentPicks(all, now, maxtime);
      nodes := nodes[n := nodes[n].(reports := kept)];
    }

    method DelFailureReport(n: Id, sender: Id, now: int, maxtime: int) returns (found: bool, ghost j: nat, ghost at: seq<nat>)
      requires n in nodes
      modifies this`nodes
      ensures found == HasReport(old(nodes)[n].reports, sender)
      ensures nodes.Keys == old(nodes).Keys && nodes == old(nodes)[n := old(nodes)[n].(reports := nodes[n].reports)]
      ensures !found ==> nodes == old(nodes)
      ensures found ==> DropsAt(old(nodes)[n].reports, j, sender, nodes[n].reports, at, now, maxtime)
      ensures nodes == old(nodes)[n := old(nodes)[n].(reports := Withdrawn(old(nodes)[n].reports, sender, now, maxtime))]
      ensures old(Valid()) ==> Valid()
    {
      hide Agrees, Linked, Reported, Picks, Recent, DropFirst;
      j, at := 0, [];
      if Valid() { WithdrawnKeep(slots, nodes, n, sender, now, maxtime); }
      var all := nodes[n].reports;
      var i := 0;
      while i < |all| && all[i].sender != sender
        invariant i <= |all| && forall k :: 0 <= k < i ==> all[k].sender != sender
      {
        i := i + 1;
      }
      if i == |all| {
        assert nodes[n].(reports := all) == nodes[n];
        return false, 0, [];
      }
      DropFirstAt(all, sender, i);
      nodes := nodes[n := nodes[n].(reports := all[..i] + all[i + 1..])];
      at := CleanupReports(n, now, maxtime);
      found, j := true, i;
    }

    /** A second report of the same sender only renews the first. */
    method AddFailureReport(failing: Id, sender: Id, now: int) returns (added: bool)
      requires Valid() && failing in nodes && sender in nodes
      modifies this`nodes
      ensures Valid()
      ensures added == !HasReport(old(nodes)[failing].reports, sender)
      ensures failing in nodes && nodes == old(nodes)[failing := old(nodes)[failing].(reports := nodes[failing].reports)]
      ensures HasReport(nodes[failing].reports, sender)
      ensures added ==> nodes[failing].reports == old(nodes)[failing].reports + [Report(sender, now)]
      ensures !added ==> Renewed(old(nodes)[failing].reports, nodes[failing].reports, sender, now)
    {
      hide Agrees, Linked;
      var all := nodes[failing].reports;
      assert ReportsFrom(all, nodes.Keys);
      var i := 0;
      while i < |all|
        invariant i <= |all| && forall k :: 0 <= k < i ==> all[k].sender != sender
        invariant nodes == old(nodes)
      {
        if all[i].sender == sender {
          var renewed := all[i := Report(sender, now)];
          ReportsKeep(slots, nodes, failing, renewed);
          nodes := nodes[failing := nodes[failing].(reports := renewed)];
          assert renewed[i].sender == sender;
          return false;
        }
        i := i + 1;
      }
      var more := all + [Report(sender, now)];
      ReportsKeep(slots, nodes, failing, more);
      nodes := nodes[failing := nodes[failing].(reports := more)];
      assert more[|all|].sender == sender;
      added := true;
    }

    // ----- removing a node

    method ClearSlotsOf(n: Id)
      requires Valid() && n in nodes
      modifies this`slots, this`nodes, this`importing, this`migrating
      ensures Valid() && SameButSlots(old(nodes), nodes)
      ensures slots == Replaced(old(slots), Some(n), None)
      ensures importing == Replaced(old(importing), Some(n), None) && migrating == Replaced(old(migrating), Some(n), None)
    {
      hide TestBit, Agrees, Linked, Reported, Names, SameButSlots;
      SameButSlotsSelf(nodes);
      var j := 0;
      while j < Slots
        invariant 0 <= j <= Slots && Valid() && SameButSlots(old(nodes), nodes)
        invariant forall k :: 0 <= k < j ==> slots[k] == if old(slots)[k] == Some(n) then None else old(slots)[k]
        invariant forall k :: j <= k < Slots ==> slots[k] == old(slots)[k]
        invariant forall k :: 0 <= k < j ==> importing[k] == if old(importing)[k] == Some(n) then None else old(importing)[k]
        invariant forall k :: j <= k < Slots ==> importing[k] == old(importing)[k]
        invariant forall k :: 0 <= k < j ==> migrating[k] == if old(migrating)[k] == Some(n) then None else old(migrating)[k]
        invariant forall k :: j <= k < Slots ==> migrating[k] == old(migrating)[k]
      {
        NamesCleared(importing, nodes, j);
        NamesCleared(migrating, nodes, j);
        if importing[j] == Some(n) { importing := importing[j := None]; }
        if migrating[j] == Some(n) { migrating := migrating[j := None]; }
        if slots[j] == Some(n) {
          ghost var before := nodes;
          var _ := DelSlot(j);
          SameButSlotsTrans(old(nodes), before, nodes);
        }
        j := j + 1;
      }
    }

    method WithdrawReportsOf(n: Id, now: int, maxtime: int)
      modifies this`nodes
      ensures nodes == Withdraws(old(nodes), old(nodes).Keys, n, now, maxtime)
    {
      hide Withdrawn;
      var todo := nodes.Keys;
      ghost var done: set<Id> := {};
      assert nodes == Withdraws(nodes, {}, n, now, maxtime);
      while todo != {}
        invariant todo !! done && todo + done == old(nodes).Keys
        invariant nodes == Withdraws(old(nodes), done, n, now, maxtime)
        decreases todo
      {
        Inhabited(todo);
        var x :| x in todo;
        todo := todo - {x};
        ghost var before := nodes;
        if x != n {
          var _, _, _ := DelFailureReport(x, n, now, maxtime);
        }
        WithdrawsOne(old(nodes), done, n, now, maxtime, x);
        done := done + {x};
      }
    }

    method FreeNode(n: Id)
      requires n in nodes && Linked(nodes)
      modifies this`nodes
      // x no longer follows n or lists it; nothing else is different
      ensures nodes.Keys == old(nodes).Keys - {n}
      ensures forall x :: x in nodes ==>
                && nodes[x] == old(nodes)[x].(slaveof := nodes[x].slaveof, slaves := nodes[x].slaves)
                && nodes[x].slaveof == (if old(nodes)[x].slaveof == Some(n) then None else old(nodes)[x].slaveof)
                && forall y :: y in nodes[x].slaves <==> y in old(nodes)[x].slaves && y != n
      ensures nodes == Orphans(old(nodes), n)
    {
      hide Linked, Without;
      var slaves := nodes[n].slaves;
      assert Bereft(nodes, slaves[..0]) == nodes;
      var j := 0;
      while j < |slaves|
        invariant j <= |slaves| && nodes == Bereft(old(nodes), slaves[..j])
      {
        SlaveKnown(old(nodes), n, slaves[j]);
        assert slaves[..j + 1] == slaves[..j] + [slaves[j]];
        BereftOne(old(nodes), slaves[..j], slaves[j]);
        nodes := nodes[slaves[j] := nodes[slaves[j]].(slaveof := None)];
        j := j + 1;
      }
      assert slaves[..j] == slaves;
      OrphansSteps(old(nodes), n);
      if nodes[n].slave && nodes[n].slaveof.Some? {
        LinkedKnown(old(nodes), n);
        var _ := RemoveSlave(nodes[n].slaveof.value, n);
      }
      nodes := nodes - {n};
      forall x | x in nodes ensures forall y :: y in nodes[x].slaves <==> y in old(nodes)[x].slaves && y != n {
        OrphanSlaves(old(nodes), n, x);
      }
    }

    /** Afterwards nothing refers to the node, and nothing else changed but reports grown too old. */
    method DelNode(n: Id, now: int, maxtime: int)
      requires Valid() && n in nodes && n != myself
      modifies this`slots, this`nodes, this`importing, this`migrating
      ensures Valid() && Forgotten(slots, importing, migrating, nodes, n)
      ensures nodes == Deleted(old(nodes), n, now, maxtime) && nodes.Keys == old(nodes).Keys - {n}
      ensures forall x :: x in nodes ==> LeftOf(old(nodes)[x], nodes[x], n, now, maxtime)
      ensures slots == Replaced(old(slots), Some(n), None)
      ensures importing == Replaced(old(importing), Some(n), None) && migrating == Replaced(old(migrating), Some(n), None)
    {
      hide TestBit, Agrees, Linked, Reported, Orphans, Withdraws;
      ClearSlotsOf(n);
      DelNodeKeeps(slots, nodes, n, now, maxtime);
      DeletedFlags(nodes, n, now, maxtime);
      DelNodeSame(old(slots), slots, old(nodes), nodes, n, now, maxtime);
      NamesWithout(importing, nodes, n, Deleted(nodes, n, now, maxtime));
      NamesWithout(migrating, nodes, n, Deleted(nodes, n, now, maxtime));
      hide Names;
      WithdrawReportsOf(n, now, maxtime);
      FreeNode(n);
      hide LeftOf, Deleted;
      forall x | x in nodes ensures LeftOf(old(nodes)[x], nodes[x], n, now, maxtime) { DeletedMeaning(old(nodes), n, now, maxtime, x); }
    }
  }

  lemma OwnerBit(slots: Table, nodes: Nodes, n: Id, j: nat)
    requires Agrees(slots, nodes) && n in nodes && j < Slots
    ensures TestBit(nodes[n].bits, j) <==> slots[j] == Some(n)
  {
    assert AgreesAt(slots, n, nodes[n]);
  }

  lemma AgreesNames(slots: Table, nodes: Nodes)
    requires Agrees(slots, nodes)
    ensures Names(slots, nodes)
  {}

  /** A slot not yet handled is judged as it was at the start. */
  lemma MovesNow(slots: Table, slots': Table, importing: Table, nodes: Nodes, nodes': Nodes, c: Claim, j: nat)
    requires Names(slots, nodes) && Names(slots', nodes') && |importing| == Slots && j < Slots
    requires slots'[j] == slots[j] && SameButSlots(nodes, nodes')
    ensures nodes'.Keys == nodes.Keys && (slots'[j].Some? ==> slots'[j].value in nodes')
    ensures Moves(slots, importing, nodes, c, j) <==>
            TestBit(c.bits, j) && slots'[j] != Some(c.sender) && importing[j].None?
            && (slots'[j].None? || nodes'[slots'[j].value].configEpoch < c.epoch)
  {
    hide TestBit;
    if slots[j].Some? {
      var n := slots[j].value;
      assert n in nodes && nodes'[n] == nodes[n].(bits := nodes'[n].bits, numslots := nodes'[n].numslots);
    }
  }

  lemma OrphanSlaves(nodes: Nodes, n: Id, x: Id)
    requires Linked(nodes) && n in nodes && x in nodes && x != n
    ensures x in Orphans(nodes, n) && forall y :: y in Orphans(nodes, n)[x].slaves <==> y in nodes[x].slaves && y != n
  {
    hide Without;
    assert DownLinks(nodes, x);
    WithoutMeaning(nodes[x].slaves, n);
  }

  lemma MovesKnown(slots: Table, importing: Table, nodes: Nodes, c: Claim, j: nat)
    requires Names(slots, nodes) && |importing| == Slots && j < Slots
    ensures Moves(slots, importing, nodes, c, j) ==> slots[j] != Some(c.sender)
  {}

  lemma NamesCleared(s: Table, nodes: Nodes, j: nat)
    requires Names(s, nodes) && j < Slots
    ensures |s| == Slots && Names(s[j := None], nodes)
  {}

  lemma LinkedKnown(nodes: Nodes, n: Id)
    requires n in nodes && Linked(nodes)
    ensures UpLinkKnown(nodes, n)
  {
    assert UpLink(nodes, n);
  }

  /** Apart from the one node's role, the nodes keep their roles, masters, epochs and reports. */
  ghost predicate OthersSame(nodes: Nodes, nodes': Nodes, n: Id) {
    && nodes'.Keys == nodes.Keys
    && forall x :: x in nodes ==>
         && nodes'[x].configEpoch == nodes[x].configEpoch && nodes'[x].reports == nodes[x].reports
         && (x != n ==> nodes'[x].master == nodes[x].master && nodes'[x].slave == nodes[x].slave && nodes'[x].slaveof == nodes[x].slaveof)
  }

  lemma AsSlaveUp(nodes: Nodes, a: Id, b: Id)
    requires a in nodes && b in nodes && UpLinkKnown(nodes, a)
    ensures AsSlave(nodes, a, b).Keys == nodes.Keys
    ensures AsSlave(nodes, a, b)[a] == nodes[a].(master := false, slave := true, slaveof := Some(b), slaves := AsSlave(nodes, a, b)[a].slaves)
    ensures forall x :: x in nodes && x != a ==> AsSlave(nodes, a, b)[x] == nodes[x].(slaves := AsSlave(nodes, a, b)[x].slaves)
  {
    hide Without;
  }

  lemma LinkedMaster(nodes: Nodes, n: Id)
    requires n in nodes && Linked(nodes) && nodes[n].master
    ensures nodes[n].slaveof == None
  {
    assert UpLink(nodes, n);
  }

  /** The report of the sender has a new time; nothing else is different. */
  ghost predicate Renewed(a: seq<Report>, b: seq<Report>, sender: Id, now: int) {
    exists i :: 0 <= i < |a| && a[i].sender == sender && b == a[i := Report(sender, now)]
  }

  lemma ReportsKeep(slots: Table, nodes: Nodes, n: Id, reports: seq<Report>)
    requires n in nodes && ReportsFrom(reports, nodes.Keys)
    requires Agrees(slots, nodes) && Linked(nodes) && Reported(nodes)
    ensures var nodes' := nodes[n := nodes[n].(reports := reports)]; Agrees(slots, nodes') && Linked(nodes') && Reported(nodes')
  {
    hide TestBit, Count;
    var nodes' := nodes[n := nodes[n].(reports := reports)];
    assert nodes'.Keys == nodes.Keys;
    forall x | x in nodes' ensures AgreesAt(slots, x, nodes'[x]) { assert AgreesAt(slots, x, nodes[x]); }
    forall x | x in nodes' ensures UpLink(nodes', x) { assert UpLink(nodes, x); }
    forall x | x in nodes' ensures DownLinks(nodes', x) { assert DownLinks(nodes, x); }
  }

  lemma WithdrawnKeep(slots: Table, nodes: Nodes, n: Id, sender: Id, now: int, maxtime: int)
    requires n in nodes && Agrees(slots, nodes) && Linked(nodes) && Reported(nodes)
    ensures var nodes' := nodes[n := nodes[n].(reports := Withdrawn(nodes[n].reports, sender, now, maxtime))];
            Agrees(slots, nodes') && Linked(nodes') && Reported(nodes')
  {
    hide Agrees, Linked, Withdrawn;
    assert ReportsFrom(nodes[n].reports, nodes.Keys);
    WithdrawnReports(nodes[n].reports, sender, now, maxtime, nodes.Keys);
    ReportsKeep(slots, nodes, n, Withdrawn(nodes[n].reports, sender, now, maxtime));
  }

  lemma NamesWithout(s: Table, nodes: Nodes, n: Id, nodes': Nodes)
    requires Names(s, nodes) && Some(n) !in s && nodes'.Keys == nodes.Keys - {n}
    ensures Names(s, nodes')
  {
    forall j | 0 <= j < Slots && s[j].Some? ensures s[j].value in nodes' { assert s[j] in s; }
  }

  function NewNode(master: bool): Node {
    Node(Empty(), 0, 0, master, false, None, [], [])
  }

  lemma NewNodeAgrees(slots: Table, nodes: Nodes, n: Id, master: bool)
    requires n !in nodes && Agrees(slots, nodes) && Linked(nodes) && Reported(nodes)
    ensures var nodes' := nodes[n := NewNode(master)]; Agrees(slots, nodes') && Linked(nodes') && Reported(nodes')
  {
    hide TestBit, Count, Empty;
    var nodes' := nodes[n := NewNode(master)];
    EmptyCount();
    forall j | 0 <= j < Slots ensures !TestBit(Empty(), j) { EmptyBits(j); }
    forall x | x in nodes' ensures AgreesAt(slots, x, nodes'[x]) { if x != n { assert AgreesAt(slots, x, nodes[x]); } }
    forall x | x in nodes' ensures UpLink(nodes', x) { if x != n { assert UpLink(nodes, x); } }
    forall x | x in nodes' ensures DownLinks(nodes', x) { if x != n { assert DownLinks(nodes, x); } }
    forall x | x in nodes' ensures ReportsFrom(nodes'[x].reports, nodes'.Keys) { if x != n { assert ReportsFrom(nodes[x].reports, nodes.Keys); } }
  }

  // ----- when an update crashes the server

  /** The condition of UpdateSlotsConfigWith under which the server stops. */
  ghost predicate Crashes(slots: Table, importing: Table, nodes: Nodes, c: Claim, me: Id, curmaster: Option<Id>)
    requires Names(slots, nodes) && |importing| == Slots
  {
    && c.sender != me && Loses(slots, importing, nodes, c, curmaster)
    && (curmaster.None? || (curmaster !in Moved(slots, importing, nodes, c) && Some(me) in Moved(slots, importing, nodes, c)))
  }

  /** A master, or a slave that knows its master and owns no slot, never crashes. */
  lemma KnownMasterIsSafe(slots: Table, importing: Table, nodes: Nodes, c: Claim, me: Id, curmaster: Option<Id>)
    requires Names(slots, nodes) && |importing| == Slots
    requires curmaster == Some(me) || (curmaster.Some? && Some(me) !in slots)
    ensures !Crashes(slots, importing, nodes, c, me, curmaster)
  {
    hide Moves;
    var moved := Moved(slots, importing, nodes, c);
    if Some(me) !in slots && c.sender != me {
      forall j | 0 <= j < |moved| ensures moved[j] != Some(me) { assert slots[j] in slots; }
    }
  }

  /** A slave that does not know its master crashes exactly when some free slot, not being imported, is claimed by another node. */
  lemma UnknownMasterCrashes(slots: Table, importing: Table, nodes: Nodes, c: Claim, me: Id)
    requires Names(slots, nodes) && |importing| == Slots
    ensures Crashes(slots, importing, nodes, c, me, None) <==>
            c.sender != me && exists j :: 0 <= j < Slots && TestBit(c.bits, j) && slots[j].None? && importing[j].None?
  {
    hide TestBit;
    if exists j :: 0 <= j < Slots && TestBit(c.bits, j) && slots[j].None? && importing[j].None? {
      var j :| 0 <= j < Slots && TestBit(c.bits, j) && slots[j].None? && importing[j].None?;
      assert Moves(slots, importing, nodes, c, j);
    }
  }

  /** Such a run: this node follows node 1, node 1 is removed, and node 2 claims slot 0. CLUSTER FORGET
      refuses to remove this node's master; but node 1 has no role yet, so it is a node in handshake,
      and those are removed when they time out. */
  method CrashRun() returns (r: Outcome)
    ensures r == Crashed
  {
    hide TestBit, SetBit, Linked, Reported, Moves, Popcount, AsSlave, Deleted;
    var cluster := new Cluster(0);
    cluster.AddNode(1);
    AsSlaveSame(cluster.nodes, 0, 1);
    cluster.SetMaster(1);
    DeletedAt(cluster.nodes, 1, 0, 0, 0);
    cluster.DelNode(1, 0, 0);
    cluster.AddNode(2);
    var bits := SetBit(Empty(), 0);
    WriteBit(Empty(), 0, 0);
    UnknownMasterCrashes(cluster.slots, cluster.importing, cluster.nodes, Claim(2, 1, bits), 0);
    r := cluster.UpdateSlotsConfigWith(Claim(2, 1, bits));
  }
}
