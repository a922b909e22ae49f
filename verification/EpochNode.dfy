/**
 The config-epoch handlers as they run on one node.
 */
module EpochNode {
  import opened Basics
  import opened Epochs

  class EpochState {
    var me: Id
    var currentEpoch: nat
    var epochs: map<Id, nat>

    function State(): Table
      reads this
    {
      Table(me, currentEpoch, epochs)
    }

    constructor (me: Id)
      ensures State() == Table(me, 0, map[me := 0]) && Bounded(State())
    {
      this.me, currentEpoch, epochs := me, 0, map[me := 0];
    }

    /** clusterGetMaxEpoch: whatever the order of the table. */
    method GetMaxEpoch() returns (max: nat)
      ensures IsMaxEpoch(State(), max)
    {
      max := 0;
      var todo := epochs.Keys;
      while todo != {}
        invariant todo <= epochs.Keys
        invariant forall x :: x in epochs && x !in todo ==> epochs[x] <= max
        invariant max == 0 || exists x :: x in epochs && epochs[x] == max
        decreases todo
      {
        var x :| x in todo;
        todo := todo - {x};
        if epochs[x] > max { max := epochs[x]; }
      }
      if max < currentEpoch { max := currentEpoch; }
    }

    method BumpConfigEpochWithoutConsensus() returns (changed: bool)
      requires me in epochs
      modifies this
      ensures me == old(me)
      // changes anything exactly if the own epoch is zero or not the greatest there is, and then to a new one
      ensures changed <==> old(epochs)[me] == 0 || old(currentEpoch) > old(epochs)[me] || exists x :: x in old(epochs) && old(epochs)[x] > old(epochs)[me]
      ensures State() == if changed then Table(old(me), old(currentEpoch) + 1, old(epochs)[old(me) := old(currentEpoch) + 1]) else old(State())
      ensures exists max :: IsMaxEpoch(old(State()), max) && State() == Bump(old(State()), max)
      ensures changed <==> State() != old(State())
      ensures old(Bounded(State())) ==> Bounded(State()) && (changed <==> old(epochs)[me] == 0 || old(epochs)[me] != old(currentEpoch))
      ensures changed && old(Bounded(State())) ==> forall x :: x in epochs && x != me ==> epochs[x] < epochs[me]
    {
      var max := GetMaxEpoch();
      assert IsMaxEpoch(old(State()), max);
      if epochs[me] == 0 || epochs[me] != max {
        currentEpoch := currentEpoch + 1;
        epochs := epochs[me := currentEpoch];
        changed := true;
      } else {
        changed := false;
      }
    }

    /** Of two masters with one config epoch only the one with the smaller name moves, to an epoch
        greater than every epoch it knows; afterwards the two epochs differ. */
    method HandleConfigEpochCollision(sender: Id, bothMasters: bool)
      requires me in epochs && sender in epochs
      modifies this
      ensures State() == Collide(old(State()), sender, bothMasters)
      ensures State() != old(State()) <==> bothMasters && old(epochs)[sender] == old(epochs)[me] && sender > me
      ensures me == old(me) && epochs.Keys == old(epochs).Keys && forall x :: x in epochs && x != me ==> epochs[x] == old(epochs)[x]
      ensures State() != old(State()) ==> epochs[me] == currentEpoch == old(currentEpoch) + 1
      ensures old(Bounded(State())) ==> Bounded(State())
      ensures old(Bounded(State())) && State() != old(State()) ==> forall x :: x in epochs && x != me ==> epochs[x] < epochs[me]
      ensures old(Bounded(State())) && bothMasters && sender > me ==> epochs[sender] != epochs[me]
    {
      if epochs[sender] != epochs[me] || !bothMasters { return; }
      if sender <= me { return; }
      currentEpoch := currentEpoch + 1;
      epochs := epochs[me := currentEpoch];
    }

    method ProcessHeader(sender: Id, senderCurrentEpoch: nat, senderConfigEpoch: nat)
      requires sender in epochs
      modifies this
      ensures me == old(me) && currentEpoch == Max(old(currentEpoch), senderCurrentEpoch)
      ensures epochs == old(epochs)[sender := Max(old(epochs)[sender], senderConfigEpoch)]
      ensures State() == SeeHeader(old(State()), sender, senderCurrentEpoch, senderConfigEpoch)
    {
      if senderCurrentEpoch > currentEpoch { currentEpoch := senderCurrentEpoch; }
      if senderConfigEpoch > epochs[sender] { epochs := epochs[sender := senderConfigEpoch]; }
      assert epochs == old(epochs)[sender := Max(old(epochs)[sender], senderConfigEpoch)];
    }

    method ProcessUpdate(about: Id, reported: nat)
      modifies this
      ensures me == old(me) && currentEpoch == old(currentEpoch)
      ensures epochs == if about in old(epochs) then old(epochs)[about := Max(old(epochs)[about], reported)] else old(epochs)
      ensures State() == Update(old(State()), about, reported)
    {
      if about !in epochs { return; }
      if epochs[about] >= reported { return; }
      epochs := epochs[about := reported];
    }

    /** The epoch part of clusterProcessPacket. */
    method ProcessPacket(m: Message, bothMasters: bool)
      requires me in epochs && m.from in epochs
      modifies this
      ensures me == old(me) && epochs.Keys == old(epochs).Keys
      // every other entry is the greatest of what it was, the header's if of the sender, and the reported one if the packet is an UPDATE about it
      ensures forall x :: x in epochs && x != me ==> epochs[x] == Max(old(epochs)[x], Carried(m, x))
      // this node's own entry likewise, unless it has to give way to a sender with the same epoch and a greater name
      ensures var seen := Max(old(currentEpoch), m.currentEpoch);
              if GivesWay(old(State()), m, bothMasters) then currentEpoch == epochs[me] == seen + 1
              else currentEpoch == seen && epochs[me] == Max(old(epochs)[me], Carried(m, me))
      ensures State() == Hear(old(State()), m, bothMasters)
      ensures old(Bounded(State())) && MessageBounded(m) ==> Bounded(State())
    {
      HearMeans(State(), m, bothMasters);
      if Bounded(State()) && MessageBounded(m) { HearBounded(State(), m, bothMasters); }
      hide Bounded, MessageBounded, Collide, Update;
      ProcessHeader(m.from, m.currentEpoch, m.configEpoch);
      match m {
        case Ping(_, _, configEpoch, _, _) =>
          if configEpoch == epochs[me] { HandleConfigEpochCollision(m.from, bothMasters); }
        case UpdateMsg(_, _, _, about, reported) => ProcessUpdate(about, reported);
        case _ =>
      }
    }
  }

  /** The greatest config epoch that a packet carries of node x. */
  function Carried(m: Message, x: Id): nat {
    Max(if x == m.from then m.configEpoch else 0, if m.UpdateMsg? && x == m.about then m.reported else 0)
  }

  /** The packet shows that a master with a greater name has this master's config epoch. */
  predicate GivesWay(t: Table, m: Message, bothMasters: bool)
    requires t.me in t.epochs && m.from in t.epochs
  {
    m.Ping? && bothMasters && m.from > t.me && m.configEpoch == t.epochs[t.me] && t.epochs[m.from] <= m.configEpoch
  }

  lemma HearMeans(t: Table, m: Message, bothMasters: bool)
    requires t.me in t.epochs && m.from in t.epochs
    ensures var t', seen := Hear(t, m, bothMasters), Max(t.currentEpoch, m.currentEpoch);
            && t'.me == t.me && t'.epochs.Keys == t.epochs.Keys
            && (forall x :: x in t'.epochs && x != t.me ==> t'.epochs[x] == Max(t.epochs[x], Carried(m, x)))
            && (if GivesWay(t, m, bothMasters) then t'.currentEpoch == t'.epochs[t.me] == seen + 1
                else t'.currentEpoch == seen && t'.epochs[t.me] == Max(t.epochs[t.me], Carried(m, t.me)))
  {
    if m.Ping? { PingMeans(t, m, bothMasters); } else { hide OnPing; }
  }

  lemma PingMeans(t: Table, m: Message, bothMasters: bool)
    requires t.me in t.epochs && m.from in t.epochs && m.Ping?
    ensures var t', seen := OnPing(t, m.from, m.currentEpoch, m.configEpoch, bothMasters), Max(t.currentEpoch, m.currentEpoch);
            && t'.me == t.me && t'.epochs.Keys == t.epochs.Keys
            && (forall x :: x in t'.epochs && x != t.me ==> t'.epochs[x] == if x == m.from then Max(t.epochs[x], m.configEpoch) else t.epochs[x])
            && (if GivesWay(t, m, bothMasters) then t'.currentEpoch == t'.epochs[t.me] == seen + 1
                else t'.currentEpoch == seen && t'.epochs[t.me] == if t.me == m.from then Max(t.epochs[t.me], m.configEpoch) else t.epochs[t.me])
  {}
}
