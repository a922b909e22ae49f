/**
 Servers that run the election handlers and exchange messages. Whatever the schedule, they take the
 steps of the election system, so the safety of elections holds for the code.
 */
module ElectionServers {
  import opened Election
  import opened ElectionNode

  /** What may happen next: a message arrives, with what its receiver knows besides; one is lost; a slave's timer runs; a node gossips; a node's epoch is raised by another handler. */
  datatype Op =
    | Arrive(m: Message, view: VoteView, requestConfigEpoch: nat, claimed: seq<bool>, owners: seq<Owner>)
    | Vanish(m: Message)
    | Timer(s: Id, timing: FailoverView, links: set<Id>)
    | Talk(m: Message)
    | Bump(n: Id, epoch: nat)

  function Winners(wins: set<Win>): set<(Id, nat)> {
    set a | a in wins :: (a.slave, a.epoch)
  }

  class Servers {
    const masters: set<Id>
    const nodes: map<Id, ClusterState>
    var net: multiset<Message>
    var winners: set<(Id, nat)>
    ghost var world: World

    ghost predicate Apart() {
      forall i, j :: i in nodes && j in nodes && i != j ==> nodes[i] != nodes[j]
    }

    /** The objects hold what the world says. */
    ghost predicate Valid()
      reads this, nodes.Values
    {
      && Apart() && world.nodes.Keys == nodes.Keys && world.net == net
      && (forall i :: i in nodes ==> nodes[i].State() == world.nodes[i])
      && winners == Winners(world.wins)
    }

    constructor (masters: set<Id>, nodes: map<Id, ClusterState>)
      requires forall i, j :: i in nodes && j in nodes && i != j ==> nodes[i] != nodes[j]
      requires forall i :: i in nodes ==> nodes[i].State() == Node(0, 0, 0, 0, false)
      ensures Valid() && Init(world) && this.masters == masters && this.nodes == nodes
    {
      this.masters, this.nodes, net, winners := masters, nodes, multiset{}, {};
      world := World(map i | i in nodes :: Node(0, 0, 0, 0, false), multiset{}, map[], map[], {}, {});
    }

    method Deliver(op: Op)
      requires Valid() && op.Arrive? && |op.claimed| == |op.owners| && op.m in net && op.m.to in nodes
      modifies this`net, this`world, nodes.Values
      ensures Valid() && world == DeliverTo(masters, old(world), op.m, FullView(op))
    {
      hide Grants, Counts;
      var m := op.m;
      var node := nodes[m.to];
      DeliverNodes(masters, world, m, FullView(op));
      DeliverNet(masters, world, m, FullView(op));
      var sent := Handle(node, op, m.from in masters);
      hide NodeAfter, SentBy;
      net := net - multiset{m} + sent;
      world := DeliverTo(masters, world, m, FullView(op));
      hide DeliverTo;
    }

    method Tick(s: Id, timing: FailoverView, links: set<Id>)
      requires Valid() && s in nodes
      modifies this`net, this`world, this`winners, nodes[s]
      ensures Valid() && world == TickAt(masters, old(world), s, timing, links)
    {
      hide TickAt, SlaveFailover, Winners, Requests;
      var node := nodes[s];
      TickShape(masters, world, s, timing, links);
      var action := node.HandleSlaveFailover(timing, |masters|);
      if action.Requested? { net := net + Requests(s, node.failoverAuthEpoch, links); }
      if action.Won? { winners := winners + {(s, node.failoverAuthEpoch)}; }
      world := TickAt(masters, world, s, timing, links);
    }

    /** Whether an operation can happen now. A strict network brings no vote between the reset of the counter and the next request. */
    predicate Possible(op: Op, strict: bool)
      reads this, nodes.Values
    {
      match op
      case Arrive(m, view, _, claimed, owners) =>
        && |claimed| == |owners| && m in net && m.to in nodes && (view.votes ==> m.to in masters)
        && (strict && m.Ack? ==> nodes[m.to].failoverAuthSent || !(m.from in masters && m.epoch >= nodes[m.to].failoverAuthEpoch))
      case Vanish(m) => m in net
      case Timer(s, _, links) => s in nodes && links <= nodes.Keys
      case Talk(m) => m.Gossip? && m.from in nodes && m.epoch <= nodes[m.from].currentEpoch
      case Bump(n, epoch) => n in nodes && epoch >= nodes[n].currentEpoch
    }

    /** Does one operation: a step of the election system. */
    method Perform(op: Op, ghost strict: bool)
      requires Valid() && Possible(op, strict)
      modifies this`net, this`world, this`winners, nodes.Values
      ensures Valid() && Enabled(strict, masters, old(world), StepOf(op)) && world == Next(strict, masters, old(world), StepOf(op))
    {
      PossibleIsEnabled(this, op, strict);
      hide Enabled, DeliverTo, TickAt, Winners, SlotsCurrent;
      match op {
        case Arrive(_, _, _, _, _) => Deliver(op);
        case Vanish(m) => Carry(net - multiset{m});
        case Timer(s, timing, links) => Tick(s, timing, links);
        case Talk(m) => Carry(net + multiset{m});
        case Bump(n, epoch) => RaiseEpoch(n, epoch);
      }
    }

    method Carry(net': multiset<Message>)
      requires Valid()
      modifies this`net, this`world
      ensures Valid() && world == old(world).(net := net')
    {
      net := net';
      world := world.(net := net);
    }

    method RaiseEpoch(n: Id, epoch: nat)
      requires Valid() && n in nodes && epoch >= nodes[n].currentEpoch
      modifies this`world, nodes[n]
      ensures Valid() && world == old(world).(nodes := old(world).nodes[n := old(world).nodes[n].(currentEpoch := epoch)])
    {
      hide Winners;
      nodes[n].ProcessHeader(epoch);
      world := world.(nodes := world.nodes[n := world.nodes[n].(currentEpoch := epoch)]);
    }

    /** Does an operation if it can happen. */
    method Try(op: Op, strict: bool)
      requires Valid()
      modifies this`net, this`world, this`winners, nodes.Values
      ensures Valid() && Takes(strict, masters, op, old(world), world)
    {
      PossibleIsEnabled(this, op, strict);
      hide Enabled, DeliverTo, TickAt, Winners, Next;
      if Possible(op, strict) { Perform(op, strict); }
    }
  }

  ghost function StepOf(op: Op): Step
    requires op.Arrive? ==> |op.claimed| == |op.owners|
  {
    match op
    case Arrive(m, _, _, _, _) => Step.Deliver(m, FullView(op))
    case Vanish(m) => Lose(m)
    case Timer(s, timing, links) => Step.Tick(s, timing, links)
    case Talk(m) => Say(m)
    case Bump(n, epoch) => Raise(n, epoch)
  }

  /** The operation is a step of the election system. */
  ghost predicate Happens(strict: bool, masters: set<Id>, w: World, op: Op) {
    (op.Arrive? ==> |op.claimed| == |op.owners|) && Enabled(strict, masters, w, StepOf(op))
  }

  /** What can happen does, and nothing else changes the world. */
  ghost predicate Takes(strict: bool, masters: set<Id>, op: Op, w: World, w': World) {
    if Happens(strict, masters, w, op) then w' == Next(strict, masters, w, StepOf(op)) else w' == w
  }

  lemma PossibleIsEnabled(servers: Servers, op: Op, strict: bool)
    requires servers.Valid()
    ensures servers.Possible(op, strict) <==> Happens(strict, servers.masters, servers.world, op)
  {
    hide Winners;
  }

  // ----- whole runs

  /** A node for every name. */
  method Boot(ids: set<Id>) returns (nodes: map<Id, ClusterState>)
    ensures nodes.Keys == ids && (forall i :: i in nodes ==> fresh(nodes[i]) && nodes[i].State() == Node(0, 0, 0, 0, false))
    ensures forall i, j :: i in nodes && j in nodes && i != j ==> nodes[i] != nodes[j]
  {
    nodes := map[];
    var todo := ids;
    while todo != {}
      invariant todo !! nodes.Keys && todo + nodes.Keys == ids
      invariant forall i :: i in nodes ==> fresh(nodes[i]) && nodes[i].State() == Node(0, 0, 0, 0, false)
      invariant forall i, j :: i in nodes && j in nodes && i != j ==> nodes[i] != nodes[j]
      decreases todo
    {
      var i :| i in todo;
      todo := todo - {i};
      var node := new ClusterState();
      nodes := nodes[i := node];
    }
  }

  /** The trace begins with new servers and takes every operation of the schedule that can happen. */
  ghost predicate Follows(strict: bool, masters: set<Id>, schedule: seq<Op>, trace: seq<World>) {
    && |trace| == |schedule| + 1 && Init(trace[0])
    && forall i :: 0 <= i < |schedule| ==> Takes(strict, masters, schedule[i], trace[i], trace[i + 1])
  }

  lemma FollowsMore(strict: bool, masters: set<Id>, schedule: seq<Op>, i: nat, trace: seq<World>, w: World)
    requires i < |schedule| && Follows(strict, masters, schedule[..i], trace) && Takes(strict, masters, schedule[i], trace[i], w)
    ensures Follows(strict, masters, schedule[..i + 1], trace + [w])
  {
    hide Takes, Init;
    var more := trace + [w];
    forall k | 0 <= k < i + 1 ensures Takes(strict, masters, schedule[..i + 1][k], more[k], more[k + 1]) {
      if k < i { assert Takes(strict, masters, schedule[..i][k], trace[k], trace[k + 1]); }
    }
  }

  /** A trace is a run. */
  lemma {:induction false} FollowsRuns(strict: bool, masters: set<Id>, schedule: seq<Op>, trace: seq<World>, n: nat) returns (steps: seq<Step>)
    requires Follows(strict, masters, schedule, trace) && n <= |schedule|
    ensures Runs(strict, masters, trace[0], steps, trace[n])
    decreases n
  {
    hide Enabled, Next, Init;
    if n == 0 {
      steps := [];
    } else {
      steps := FollowsRuns(strict, masters, schedule, trace, n - 1);
      assert Takes(strict, masters, schedule[n - 1], trace[n - 1], trace[n]);
      if Happens(strict, masters, trace[n - 1], schedule[n - 1]) {
        RunsAppend(strict, masters, trace[0], steps, trace[n - 1], StepOf(schedule[n - 1]));
        steps := steps + [StepOf(schedule[n - 1])];
      }
    }
  }

  /** Servers that run the handlers on any schedule take exactly the steps of the election system that
      the schedule asks for and that can happen; on a strict network no two of them ever win the same epoch. */
  method Serve(masters: set<Id>, ids: set<Id>, schedule: seq<Op>, strict: bool) returns (servers: Servers, ghost trace: seq<World>)
    ensures servers.Valid() && servers.masters == masters && servers.nodes.Keys == ids
    ensures Follows(strict, masters, schedule, trace) && trace[0].nodes.Keys == ids && servers.world == trace[|schedule|]
    ensures strict ==> forall a, b :: a in servers.winners && b in servers.winners && a.1 == b.1 ==> a == b
  {
    hide Takes, Winners;
    var nodes := Boot(ids);
    servers := new Servers(masters, nodes);
    trace := [servers.world];
    var i := 0;
    while i < |schedule|
      invariant i <= |schedule| && servers.Valid() && servers.masters == masters && servers.nodes == nodes
      invariant fresh(servers) && fresh(nodes.Values)
      invariant Follows(strict, masters, schedule[..i], trace) && trace[0].nodes.Keys == ids && trace[i] == servers.world
    {
      servers.Try(schedule[i], strict);
      FollowsMore(strict, masters, schedule, i, trace, servers.world);
      trace := trace + [servers.world];
      i := i + 1;
    }
    assert schedule[..i] == schedule;
    if strict {
      ghost var steps := FollowsRuns(strict, masters, schedule, trace, i);
      ElectionSafety(masters, trace[0], steps, servers.world);
      SafeWinners(servers.world);
    }
  }

  lemma SafeWinners(w: World)
    requires Safe(w)
    ensures forall a, b :: a in Winners(w.wins) && b in Winners(w.wins) && a.1 == b.1 ==> a == b
  {}

  lemma TickShape(masters: set<Id>, w: World, s: Id, timing: FailoverView, links: set<Id>)
    requires s in w.nodes
    ensures var w' := TickAt(masters, w, s, timing, links);
            var (n, action) := SlaveFailover(w.nodes[s], timing, |masters| / 2 + 1);
            && w'.nodes == w.nodes[s := n]
            && w'.net == (if action.Requested? then w.net + Requests(s, n.authEpoch, links) else w.net)
            && Winners(w'.wins) == (if action.Won? then Winners(w.wins) + {(s, n.authEpoch)} else Winners(w.wins))
  {
    hide SlaveFailover;
    var (n, action) := SlaveFailover(w.nodes[s], timing, |masters| / 2 + 1);
    MoreWinners(w.wins, Win(s, n.authEpoch, CountedBy(w, s), s !in w.late));
    hide Winners;
  }

  lemma MoreWinners(wins: set<Win>, a: Win)
    ensures Winners(wins + {a}) == Winners(wins) + {(a.slave, a.epoch)}
  {
    forall x | x in Winners(wins) ensures x in Winners(wins + {a}) {
      var b :| b in wins && (b.slave, b.epoch) == x;
      assert b in wins + {a};
    }
    assert a in wins + {a};
  }

  /** The receiver's view, with the slots it compares. */
  ghost function FullView(op: Op): VoteView
    requires op.Arrive? && |op.claimed| == |op.owners|
  {
    op.view.(slotsCurrent := SlotsCurrent(op.claimed, op.owners, op.requestConfigEpoch))
  }

  // ----- one message at one node

  function NodeAfter(n: Node, m: Message, fromMaster: bool, view: VoteView): Node {
    var n' := SeeEpoch(n, m.epoch);
    match m
    case Request(_, _, epoch) => if Grants(n', epoch, view) then Vote(n') else n'
    case Ack(_, _, epoch) => if Counts(n', fromMaster, epoch) then CountAck(n') else n'
    case Gossip(_, _, _) => n'
  }

  function SentBy(n: Node, m: Message, view: VoteView): multiset<Message> {
    var n' := SeeEpoch(n, m.epoch);
    if m.Request? && Grants(n', m.epoch, view) then multiset{Ack(m.to, m.from, n'.currentEpoch)} else multiset{}
  }

  lemma DeliverNodes(masters: set<Id>, w: World, m: Message, view: VoteView)
    requires m in w.net && m.to in w.nodes
    ensures DeliverTo(masters, w, m, view).nodes == w.nodes[m.to := NodeAfter(w.nodes[m.to], m, m.from in masters, view)]
    ensures DeliverTo(masters, w, m, view).wins == w.wins
  {
    hide Grants, Counts, SeeEpoch, Vote, CountAck;
    match m
    case Request(_, _, _) =>
    case Ack(_, _, _) =>
    case Gossip(_, _, _) =>
  }

  lemma DeliverNet(masters: set<Id>, w: World, m: Message, view: VoteView)
    requires m in w.net && m.to in w.nodes
    ensures DeliverTo(masters, w, m, view).net == w.net - multiset{m} + SentBy(w.nodes[m.to], m, view)
  {
    hide Grants, Counts, SeeEpoch, Vote, CountAck;
    var net := w.net - multiset{m};
    NoneSent(net);
    match m
    case Request(from, to, epoch) =>
      var n := SeeEpoch(w.nodes[to], epoch);
      assert SentBy(w.nodes[to], m, view) == if Grants(n, epoch, view) then multiset{Ack(to, from, n.currentEpoch)} else multiset{};
    case Ack(_, _, _) => assert SentBy(w.nodes[m.to], m, view) == multiset{};
    case Gossip(_, _, _) => assert SentBy(w.nodes[m.to], m, view) == multiset{};
  }

  lemma NoneSent(net: multiset<Message>)
    ensures net + multiset{} == net
  {}

  /** clusterProcessPacket, as far as elections go. */
  method Handle(node: ClusterState, op: Op, fromMaster: bool) returns (sent: multiset<Message>)
    requires op.Arrive? && |op.claimed| == |op.owners|
    modifies node
    ensures node.State() == NodeAfter(old(node.State()), op.m, fromMaster, FullView(op))
    ensures sent == SentBy(old(node.State()), op.m, FullView(op))
  {
    hide Grants, Counts;
    sent := multiset{};
    node.ProcessHeader(op.m.epoch);
    match op.m {
      case Request(from, to, epoch) =>
        var granted := node.SendFailoverAuthIfNeeded(epoch, op.requestConfigEpoch, op.view, op.claimed, op.owners);
        if granted { sent := multiset{Ack(to, from, node.currentEpoch)}; }
      case Ack(_, _, epoch) => node.HandleAuthAck(fromMaster, epoch);
      case Gossip(_, _, _) =>
    }
  }
}
