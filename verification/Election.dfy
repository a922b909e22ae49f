/**
 Failover election of the Redis Cluster control plane (cluster.c): slaves ask for votes in a new
 epoch, masters that serve slots vote at most once per epoch, and a slave that counts a majority
 of votes takes over. Nodes exchange messages through a bag that reorders and loses them freely.

 Assumptions, as in the design: all views agree on one fixed set of slot-serving masters, and no
 node restarts (the vote is not saved before it is sent).
 */
module Election {
  import opened Basics

  type Id = nat

  /** The election fields of server.cluster. Epochs are 64-bit counters that never wrap in practice. */
  datatype Node = Node(
    currentEpoch: nat,
    lastVoteEpoch: nat,
    authEpoch: nat,
    authCount: nat,
    authSent: bool)

  // ----- handlers, as functions of the node's state

  /** Every packet from a known node may raise currentEpoch. */
  function SeeEpoch(n: Node, epoch: nat): Node {
    n.(currentEpoch := Max(n.currentEpoch, epoch))
  }

  /** The conditions of a vote that do not concern the election fields. */
  datatype VoteView = VoteView(
    votes: bool,           // we are a master serving at least one slot
    asksAsMaster: bool,    // the sender is a master
    masterKnown: bool,     // we know the sender's master
    masterFailed: bool,
    forced: bool,          // manual failover
    votedRecently: bool,   // about the same master, within twice the node timeout
    slotsCurrent: bool)    // no claimed slot is served with a greater configEpoch

  /** clusterSendFailoverAuthIfNeeded: does the (already epoch-updated) node grant its vote? */
  predicate Grants(n: Node, requestEpoch: nat, v: VoteView) {
    && v.votes
    && !(requestEpoch < n.currentEpoch)
    && n.lastVoteEpoch != n.currentEpoch
    && !(v.asksAsMaster || !v.masterKnown || (!v.masterFailed && !v.forced))
    && !v.votedRecently
    && v.slotsCurrent
  }

  function Vote(n: Node): Node {
    n.(lastVoteEpoch := n.currentEpoch)
  }

  /** An ACK is counted when its sender's epoch is not older than the epoch of our request. */
  predicate Counts(n: Node, fromMaster: bool, ackEpoch: nat) {
    fromMaster && ackEpoch >= n.authEpoch
  }

  function CountAck(n: Node): Node {
    n.(authCount := n.authCount + 1)
  }

  /** The timing and role conditions clusterHandleSlaveFailover looks at. */
  datatype FailoverView = FailoverView(
    eligible: bool,      // a slave of a failed (or manually failed over) master that serves slots
    dataFresh: bool,     // replication is recent enough, or the failover is manual
    retry: bool,         // the retry time of the previous attempt has elapsed
    delayed: bool,       // the election is scheduled for later
    expired: bool)       // the attempt is too old

  datatype Action = Nothing | Scheduled | Requested | Won

  function SlaveFailover(n: Node, v: FailoverView, quorum: nat): (Node, Action) {
    if !v.eligible then (n, Nothing)
    else if !v.dataFresh then (n, Nothing)
    else if v.retry then (n.(authCount := 0, authSent := false), Scheduled)
    else if v.delayed then (n, Nothing)
    else if v.expired then (n, Nothing)
    else if !n.authSent then
      (n.(currentEpoch := n.currentEpoch + 1, authEpoch := n.currentEpoch + 1, authSent := true), Requested)
    else if n.authCount >= quorum then (n, Won)
    else (n, Nothing)
  }

  // ----- the system

  datatype Message =
    | Request(from: Id, to: Id, epoch: nat)
    | Ack(from: Id, to: Id, epoch: nat)
    | Gossip(from: Id, to: Id, epoch: nat)

  /** `votes`, `counted`, `late` and `wins` only record history; no step reads them. A slave is late
      when, since it last reset its counter, it has counted an ACK while it had no request out. */
  datatype World = World(
    nodes: map<Id, Node>,
    net: multiset<Message>,
    votes: map<(Id, nat), Id>,
    counted: map<Id, set<Id>>,
    late: set<Id>,
    wins: set<Win>)

  /** A win is clean if the winner was not late. */
  datatype Win = Win(slave: Id, epoch: nat, voters: set<Id>, clean: bool)

  datatype Step =
    | Deliver(m: Message, view: VoteView)
    | Lose(m: Message)
    | Tick(s: Id, timing: FailoverView, links: set<Id>)
    | Say(m: Message)
    | Raise(n: Id, epoch: nat)

  function Quorum(masters: set<Id>): nat {
    |masters| / 2 + 1
  }

  function Requests(s: Id, epoch: nat, links: set<Id>): multiset<Message> {
    multiset(set d | d in links :: Request(s, d, epoch))
  }

  /**
   Which steps may happen. Only masters vote and only their ACKs count. With `noStale` set, no ACK
   of an abandoned attempt arrives between the reset of the counter and the next request.
   */
  predicate Enabled(noStale: bool, masters: set<Id>, w: World, step: Step) {
    match step
    case Deliver(m, view) =>
      && m in w.net && m.to in w.nodes
      && (view.votes ==> m.to in masters)
      && (noStale && m.Ack? ==> w.nodes[m.to].authSent || !Counts(w.nodes[m.to], m.from in masters, m.epoch))
    case Lose(m) => m in w.net
    case Tick(s, _, links) => s in w.nodes && links <= w.nodes.Keys
    case Say(m) => m.Gossip? && m.from in w.nodes && m.epoch <= w.nodes[m.from].currentEpoch
    case Raise(n, epoch) => n in w.nodes && epoch >= w.nodes[n].currentEpoch
  }

  function Next(noStale: bool, masters: set<Id>, w: World, step: Step): World
    requires Enabled(noStale, masters, w, step)
  {
    match step
    case Deliver(m, view) => DeliverTo(masters, w, m, view)
    case Lose(m) => w.(net := w.net - multiset{m})
    case Tick(s, timing, links) => TickAt(masters, w, s, timing, links)
    case Say(m) => w.(net := w.net + multiset{m})
    case Raise(n, epoch) => w.(nodes := w.nodes[n := w.nodes[n].(currentEpoch := epoch)])
  }

  function CountedBy(w: World, s: Id): set<Id> {
    if s in w.counted then w.counted[s] else {}
  }

  function DeliverTo(masters: set<Id>, w: World, m: Message, view: VoteView): World
    requires m in w.net && m.to in w.nodes
  {
    var n := SeeEpoch(w.nodes[m.to], m.epoch);
    var net := w.net - multiset{m};
    match m
    case Request(from, to, epoch) =>
      if Grants(n, epoch, view) then
        w.(nodes := w.nodes[to := Vote(n)],
           net := net + multiset{Ack(to, from, n.currentEpoch)},
           votes := w.votes[(to, n.currentEpoch) := from])
      else w.(nodes := w.nodes[to := n], net := net)
    case Ack(from, to, epoch) =>
      if Counts(n, from in masters, epoch) then
        w.(nodes := w.nodes[to := CountAck(n)],
           net := net,
           counted := w.counted[to := CountedBy(w, to) + {from}],
           late := if n.authSent then w.late else w.late + {to})
      else w.(nodes := w.nodes[to := n], net := net)
    case Gossip(_, to, _) => w.(nodes := w.nodes[to := n], net := net)
  }

  function TickAt(masters: set<Id>, w: World, s: Id, timing: FailoverView, links: set<Id>): World
    requires s in w.nodes
  {
    var (n, action) := SlaveFailover(w.nodes[s], timing, Quorum(masters));
    var w' := w.(nodes := w.nodes[s := n]);
    match action
    case Nothing => w'
    case Scheduled => w'.(counted := w.counted[s := {}], late := w.late - {s})
    case Requested => w'.(net := w.net + Requests(s, n.authEpoch, links))
    case Won => w'.(wins := w.wins + {Win(s, n.authEpoch, CountedBy(w, s), s !in w.late)})
  }

  predicate Init(w: World) {
    && w.net == multiset{} && w.votes == map[] && w.wins == {} && w.counted == map[] && w.late == {}
    && forall i :: i in w.nodes ==>
         w.nodes[i].lastVoteEpoch <= w.nodes[i].currentEpoch && w.nodes[i].authEpoch <= w.nodes[i].currentEpoch
         && w.nodes[i].authCount == 0 && !w.nodes[i].authSent
  }

  /** The state after a run, if every step of it was enabled. */
  ghost predicate Runs(noStale: bool, masters: set<Id>, w: World, steps: seq<Step>, w': World)
    decreases |steps|
  {
    if steps == [] then w == w'
    else
      && Enabled(noStale, masters, w, steps[0])
      && Runs(noStale, masters, Next(noStale, masters, w, steps[0]), steps[1..], w')
  }

  /** No two different slaves win in the same epoch. */
  predicate Safe(w: World) {
    forall a, b :: a in w.wins && b in w.wins && a.epoch == b.epoch ==> a.slave == b.slave
  }

  // ----- the invariant

  ghost predicate VotesInv(masters: set<Id>, w: World) {
    && (forall i :: i in w.nodes ==> w.nodes[i].lastVoteEpoch <= w.nodes[i].currentEpoch)
    && (forall v :: v in w.votes ==>
          && v.0 in masters && v.0 in w.nodes && v.1 <= w.nodes[v.0].lastVoteEpoch
          && w.votes[v] in w.nodes && v.1 <= w.nodes[w.votes[v]].authEpoch)
  }

  ghost predicate NetInv(masters: set<Id>, w: World) {
    && (forall m :: m in w.net && m.Request? ==> m.from in w.nodes && m.epoch <= w.nodes[m.from].authEpoch)
    && (forall m :: m in w.net && m.Ack? ==>
          w.net[m] == 1 && (m.from, m.epoch) in w.votes && w.votes[(m.from, m.epoch)] == m.to)
  }

  /** What a slave that is not late has counted are votes for it in the epoch of its request. */
  ghost predicate CountInv(w: World, s: Id)
    requires s in w.nodes
  {
    var n := w.nodes[s];
    && n.authEpoch <= n.currentEpoch
    && n.authCount == |CountedBy(w, s)|
    && (!n.authSent ==> n.authCount == 0)
    && forall m :: m in CountedBy(w, s) ==>
         && (m, n.authEpoch) in w.votes && w.votes[(m, n.authEpoch)] == s
         && Ack(m, s, n.authEpoch) !in w.net
  }

  ghost predicate WinInv(masters: set<Id>, w: World) {
    forall a :: a in w.wins && a.clean ==>
      && |a.voters| >= Quorum(masters)
      && forall m :: m in a.voters ==> (m, a.epoch) in w.votes && w.votes[(m, a.epoch)] == a.slave
  }

  ghost predicate Inv(masters: set<Id>, w: World) {
    && VotesInv(masters, w) && NetInv(masters, w) && WinInv(masters, w)
    && forall s :: s in w.nodes ==> SlaveInv(w, s)
  }

  ghost predicate SlaveInv(w: World, s: Id)
    requires s in w.nodes
  {
    w.nodes[s].authEpoch <= w.nodes[s].currentEpoch && (s !in w.late ==> CountInv(w, s))
  }

  lemma InitInv(masters: set<Id>, w: World)
    requires Init(w)
    ensures Inv(masters, w)
  {}

  lemma LoseInv(masters: set<Id>, w: World, m: Message)
    requires Inv(masters, w) && m in w.net
    ensures Inv(masters, w.(net := w.net - multiset{m}))
  {
    var w' := w.(net := w.net - multiset{m});
    forall s | s in w'.nodes ensures SlaveInv(w', s) { assert SlaveInv(w, s); }
  }

  lemma GossipInv(masters: set<Id>, w: World, m: Message)
    requires Inv(masters, w) && m.Gossip?
    ensures Inv(masters, w.(net := w.net + multiset{m}))
  {
    var w' := w.(net := w.net + multiset{m});
    forall s | s in w'.nodes ensures SlaveInv(w', s) { assert SlaveInv(w, s); }
  }

  /** Voting once per epoch: a granted vote is the first this master gives in that epoch. */
  lemma FirstVote(masters: set<Id>, w: World, m: Message, view: VoteView)
    requires Inv(masters, w) && m in w.net && m.Request? && m.to in w.nodes
    requires Grants(SeeEpoch(w.nodes[m.to], m.epoch), m.epoch, view)
    ensures SeeEpoch(w.nodes[m.to], m.epoch).currentEpoch == m.epoch && (m.to, m.epoch) !in w.votes
  {
    assert forall v :: v in w.votes && v.0 == m.to ==> v.1 <= w.nodes[m.to].lastVoteEpoch;
  }

  /** The vote table only grows. */
  ghost predicate MoreVotes(w: World, w': World) {
    forall v :: v in w.votes ==> v in w'.votes && w'.votes[v] == w.votes[v]
  }

  lemma WinsKept(masters: set<Id>, w: World, w': World)
    requires WinInv(masters, w) && w'.wins == w.wins && MoreVotes(w, w')
    ensures WinInv(masters, w')
  {}

  /** A step at another node that counts nothing and sends no ACK of an old vote. */
  lemma CountKept(w: World, w': World, s: Id)
    requires s in w.nodes && SlaveInv(w, s) && MoreVotes(w, w') && (s in w.late ==> s in w'.late)
    requires s in w'.nodes && CountedBy(w', s) == CountedBy(w, s)
    requires w'.nodes[s].authEpoch == w.nodes[s].authEpoch && w'.nodes[s].authCount == w.nodes[s].authCount
    requires w'.nodes[s].authSent == w.nodes[s].authSent && w'.nodes[s].currentEpoch >= w.nodes[s].currentEpoch
    requires forall m :: m in w'.net && m.Ack? && (m.from, m.epoch) in w.votes ==> m in w.net
    ensures SlaveInv(w', s)
  {}

  lemma GrantVotes(masters: set<Id>, w: World, m: Message, view: VoteView)
    requires VotesInv(masters, w) && m in w.net && m.Request? && m.to in w.nodes && m.to in masters
    requires m.from in w.nodes && m.epoch <= w.nodes[m.from].authEpoch
    requires Grants(SeeEpoch(w.nodes[m.to], m.epoch), m.epoch, view)
    ensures VotesInv(masters, DeliverTo(masters, w, m, view))
  {}

  lemma GrantNet(masters: set<Id>, w: World, m: Message, view: VoteView)
    requires NetInv(masters, w) && m in w.net && m.Request? && m.to in w.nodes
    requires Grants(SeeEpoch(w.nodes[m.to], m.epoch), m.epoch, view) && (m.to, m.epoch) !in w.votes
    ensures NetInv(masters, DeliverTo(masters, w, m, view))
  {
    var w' := DeliverTo(masters, w, m, view);
    var ack := Ack(m.to, m.from, m.epoch);
    assert w'.net == w.net - multiset{m} + multiset{ack};
    assert ack !in w.net;
    forall k | k in w'.net && k.Ack?
      ensures w'.net[k] == 1 && (k.from, k.epoch) in w'.votes && w'.votes[(k.from, k.epoch)] == k.to
    {
      if k != ack { assert k in w.net && w'.net[k] == w.net[k]; }
    }
  }

  lemma GrantInv(masters: set<Id>, w: World, m: Message, view: VoteView)
    requires Inv(masters, w) && m in w.net && m.Request? && m.to in w.nodes && m.to in masters
    requires Grants(SeeEpoch(w.nodes[m.to], m.epoch), m.epoch, view)
    ensures Inv(masters, DeliverTo(masters, w, m, view))
  {
    FirstVote(masters, w, m, view);
    GrantNet(masters, w, m, view);
    assert m.from in w.nodes && m.epoch <= w.nodes[m.from].authEpoch;
    GrantVotes(masters, w, m, view);
    var w' := DeliverTo(masters, w, m, view);
    hide VotesInv, NetInv, WinInv, SlaveInv;
    WinsKept(masters, w, w');
    forall s | s in w'.nodes ensures SlaveInv(w', s) { CountKept(w, w', s); }
  }

  /** A counted ACK answers the current request, not an older one, and comes from a master not counted yet. */
  lemma AckIsCurrent(masters: set<Id>, w: World, m: Message)
    requires Inv(masters, w) && m in w.net && m.Ack? && m.to in w.nodes && m.epoch >= w.nodes[m.to].authEpoch && m.to !in w.late
    ensures m.epoch == w.nodes[m.to].authEpoch && m.from !in CountedBy(w, m.to)
  {
    assert (m.from, m.epoch) in w.votes;
    assert SlaveInv(w, m.to);
  }

  lemma AckCounts(w: World, w': World, m: Message)
    requires m.Ack? && m in w.net && w.net[m] == 1 && m.to in w.nodes && SlaveInv(w, m.to) && m.to !in w.late && w.nodes[m.to].authSent
    requires m.epoch == w.nodes[m.to].authEpoch && m.from !in CountedBy(w, m.to)
    requires (m.from, m.epoch) in w.votes && w.votes[(m.from, m.epoch)] == m.to
    requires w' == w.(nodes := w.nodes[m.to := CountAck(SeeEpoch(w.nodes[m.to], m.epoch))],
                      net := w.net - multiset{m},
                      counted := w.counted[m.to := CountedBy(w, m.to) + {m.from}])
    ensures SlaveInv(w', m.to)
  {}

  lemma AckLate(w: World, w': World, m: Message)
    requires m.Ack? && m.to in w.nodes && SlaveInv(w, m.to) && m.to in w'.late
    requires w'.nodes == w.nodes[m.to := CountAck(SeeEpoch(w.nodes[m.to], m.epoch))]
    ensures SlaveInv(w', m.to)
  {}

  lemma AckFacts(masters: set<Id>, w: World, m: Message)
    requires NetInv(masters, w) && m in w.net && m.Ack?
    ensures w.net[m] == 1 && (m.from, m.epoch) in w.votes && w.votes[(m.from, m.epoch)] == m.to
  {}

  lemma AckInv(masters: set<Id>, w: World, m: Message, view: VoteView)
    requires Inv(masters, w) && m in w.net && m.Ack? && m.to in w.nodes
    requires Counts(w.nodes[m.to], m.from in masters, m.epoch)
    ensures Inv(masters, DeliverTo(masters, w, m, view))
  {
    hide VotesInv, NetInv, WinInv, SlaveInv;
    AckRest(masters, w, m, view);
    AckFacts(masters, w, m);
    var w' := DeliverTo(masters, w, m, view);
    if w.nodes[m.to].authSent && m.to !in w.late {
      AckIsCurrent(masters, w, m);
      AckCounts(w, w', m);
    } else {
      AckLate(w, w', m);
    }
    WinsKept(masters, w, w');
    forall s | s in w'.nodes ensures SlaveInv(w', s) {
      if s != m.to { CountKept(w, w', s); }
    }
  }

  lemma AckRest(masters: set<Id>, w: World, m: Message, view: VoteView)
    requires VotesInv(masters, w) && NetInv(masters, w) && m in w.net && m.Ack? && m.to in w.nodes
    requires Counts(w.nodes[m.to], m.from in masters, m.epoch)
    ensures VotesInv(masters, DeliverTo(masters, w, m, view)) && NetInv(masters, DeliverTo(masters, w, m, view))
  {}

  lemma DeliverInv(masters: set<Id>, w: World, m: Message, view: VoteView)
    requires Inv(masters, w) && Enabled(false, masters, w, Deliver(m, view))
    ensures Inv(masters, DeliverTo(masters, w, m, view))
  {
    var n := SeeEpoch(w.nodes[m.to], m.epoch);
    if m.Request? && Grants(n, m.epoch, view) {
      GrantInv(masters, w, m, view);
    } else if m.Ack? && Counts(n, m.from in masters, m.epoch) {
      AckInv(masters, w, m, view);
    } else {
      LoseInv(masters, w, m);
      EpochInv(masters, w.(net := w.net - multiset{m}), m.to, n.currentEpoch);
    }
  }

  lemma EpochInv(masters: set<Id>, w: World, i: Id, epoch: nat)
    requires Inv(masters, w) && i in w.nodes && epoch >= w.nodes[i].currentEpoch
    ensures Inv(masters, w.(nodes := w.nodes[i := w.nodes[i].(currentEpoch := epoch)]))
  {
    var w' := w.(nodes := w.nodes[i := w.nodes[i].(currentEpoch := epoch)]);
    hide VotesInv, NetInv, WinInv, SlaveInv;
    SameNet(masters, w, w');
    LaterVotes(masters, w, w');
    WinsKept(masters, w, w');
    forall s | s in w'.nodes ensures SlaveInv(w', s) { CountKept(w, w', s); }
  }

  lemma SameNet(masters: set<Id>, w: World, w': World)
    requires NetInv(masters, w) && w'.net == w.net && w'.votes == w.votes
    requires w'.nodes.Keys == w.nodes.Keys && forall i :: i in w.nodes ==> w'.nodes[i].authEpoch >= w.nodes[i].authEpoch
    ensures NetInv(masters, w')
  {}

  /** Scheduling an election forgets the votes counted so far. */
  lemma ScheduledInv(masters: set<Id>, w: World, s: Id)
    requires Inv(masters, w) && s in w.nodes
    ensures Inv(masters, w.(nodes := w.nodes[s := w.nodes[s].(authCount := 0, authSent := false)], counted := w.counted[s := {}], late := w.late - {s}))
  {
    var w' := w.(nodes := w.nodes[s := w.nodes[s].(authCount := 0, authSent := false)], counted := w.counted[s := {}], late := w.late - {s});
    assert SlaveInv(w, s);
    assert SlaveInv(w', s);
    hide VotesInv, NetInv, WinInv, SlaveInv;
    SameNet(masters, w, w');
    LaterVotes(masters, w, w');
    WinsKept(masters, w, w');
    forall i | i in w'.nodes ensures SlaveInv(w', i) {
      if i != s { CountKept(w, w', i); }
    }
  }

  /** A new request opens an epoch in which nobody has voted for this slave yet. */
  lemma RequestedInv(masters: set<Id>, w: World, w': World, s: Id, links: set<Id>)
    requires Inv(masters, w) && s in w.nodes && !w.nodes[s].authSent
    requires var n := w.nodes[s].(currentEpoch := w.nodes[s].currentEpoch + 1, authEpoch := w.nodes[s].currentEpoch + 1, authSent := true);
             w' == w.(nodes := w.nodes[s := n], net := w.net + Requests(s, n.authEpoch, links))
    ensures Inv(masters, w')
  {
    hide VotesInv, NetInv, WinInv, SlaveInv, Requests;
    RequestedCount(w, w', s);
    LaterVotes(masters, w, w');
    RequestedNet(masters, w, w', s, links);
    WinsKept(masters, w, w');
    RequestsOnly(s, w'.nodes[s].authEpoch, links);
    forall i | i in w'.nodes ensures SlaveInv(w', i) {
      if i != s { CountKept(w, w', i); }
    }
  }

  lemma RequestedCount(w: World, w': World, s: Id)
    requires s in w.nodes && SlaveInv(w, s) && !w.nodes[s].authSent && s in w'.nodes && w'.counted == w.counted && w'.late == w.late
    requires w'.nodes[s] == w.nodes[s].(currentEpoch := w.nodes[s].currentEpoch + 1, authEpoch := w.nodes[s].currentEpoch + 1, authSent := true)
    ensures SlaveInv(w', s) && w'.nodes[s].authEpoch >= w.nodes[s].authEpoch
  {
    if s !in w.late { assert CountedBy(w, s) == {}; }
  }

  lemma LaterVotes(masters: set<Id>, w: World, w': World)
    requires VotesInv(masters, w) && w'.votes == w.votes && w'.nodes.Keys == w.nodes.Keys
    requires forall i :: i in w.nodes ==>
               && w'.nodes[i].authEpoch >= w.nodes[i].authEpoch && w'.nodes[i].currentEpoch >= w.nodes[i].currentEpoch
               && w'.nodes[i].lastVoteEpoch == w.nodes[i].lastVoteEpoch
    ensures VotesInv(masters, w')
  {}

  lemma RequestsOnly(s: Id, epoch: nat, links: set<Id>)
    ensures forall m :: m in Requests(s, epoch, links) ==> m.Request? && m.from == s && m.epoch == epoch
  {}

  lemma RequestedNet(masters: set<Id>, w: World, w': World, s: Id, links: set<Id>)
    requires NetInv(masters, w) && s in w.nodes && s in w'.nodes && w'.votes == w.votes
    requires w'.nodes.Keys == w.nodes.Keys && forall i :: i in w.nodes ==> w'.nodes[i].authEpoch >= w.nodes[i].authEpoch
    requires w'.net == w.net + Requests(s, w'.nodes[s].authEpoch, links)
    ensures NetInv(masters, w')
  {
    RequestsOnly(s, w'.nodes[s].authEpoch, links);
    hide Requests;
    forall m | m in w'.net && m.Ack? ensures m in w.net && w'.net[m] == w.net[m] {}
  }

  lemma WonInv(masters: set<Id>, w: World, w': World, s: Id)
    requires Inv(masters, w) && s in w.nodes && w.nodes[s].authCount >= Quorum(masters)
    requires w' == w.(wins := w.wins + {Win(s, w.nodes[s].authEpoch, CountedBy(w, s), s !in w.late)})
    ensures Inv(masters, w')
  {
    assert SlaveInv(w, s);
    assert WinInv(masters, w');
    hide VotesInv, NetInv, WinInv, SlaveInv;
    SameNet(masters, w, w');
    LaterVotes(masters, w, w');
    forall i | i in w'.nodes ensures SlaveInv(w', i) { CountKept(w, w', i); }
  }

  lemma TickInv(masters: set<Id>, w: World, s: Id, timing: FailoverView, links: set<Id>)
    requires Inv(masters, w) && s in w.nodes
    ensures Inv(masters, TickAt(masters, w, s, timing, links))
  {
    hide Inv, Quorum, Requests;
    var (n, action) := SlaveFailover(w.nodes[s], timing, Quorum(masters));
    assert w.nodes[s := w.nodes[s]] == w.nodes;
    match action
    case Nothing => assert w.(nodes := w.nodes[s := n]) == w;
    case Scheduled => ScheduledInv(masters, w, s);
    case Requested => RequestedInv(masters, w, TickAt(masters, w, s, timing, links), s, links);
    case Won => WonInv(masters, w, TickAt(masters, w, s, timing, links), s);
  }

  /** Every step keeps the invariant, also when late ACKs arrive. */
  lemma StepInv(noStale: bool, masters: set<Id>, w: World, step: Step)
    requires Inv(masters, w) && Enabled(noStale, masters, w, step)
    ensures Inv(masters, Next(noStale, masters, w, step))
  {
    match step
    case Deliver(m, view) => DeliverInv(masters, w, m, view);
    case Lose(m) => LoseInv(masters, w, m);
    case Tick(s, timing, links) => TickInv(masters, w, s, timing, links);
    case Say(m) => GossipInv(masters, w, m);
    case Raise(n, epoch) => EpochInv(masters, w, n, epoch);
  }

  lemma {:induction false} RunInv(noStale: bool, masters: set<Id>, w: World, steps: seq<Step>, w': World)
    requires Inv(masters, w) && Runs(noStale, masters, w, steps, w')
    ensures Inv(masters, w')
    decreases |steps|
  {
    hide Next, Enabled, Inv;
    if steps != [] {
      StepInv(noStale, masters, w, steps[0]);
      RunInv(noStale, masters, Next(noStale, masters, w, steps[0]), steps[1..], w');
    }
  }

  /** Without late ACKs nobody is late. */
  ghost predicate AllClean(w: World) {
    w.late == {} && forall a :: a in w.wins ==> a.clean
  }

  lemma CleanStep(masters: set<Id>, w: World, step: Step)
    requires AllClean(w) && Enabled(true, masters, w, step)
    ensures AllClean(Next(true, masters, w, step))
  {
    hide Grants, SlaveFailover;
  }

  lemma {:induction false} CleanRun(masters: set<Id>, w: World, steps: seq<Step>, w': World)
    requires AllClean(w) && Runs(true, masters, w, steps, w')
    ensures AllClean(w')
    decreases |steps|
  {
    hide Next, Enabled, AllClean;
    if steps != [] {
      CleanStep(masters, w, steps[0]);
      CleanRun(masters, Next(true, masters, w, steps[0]), steps[1..], w');
    }
  }

  // ----- quorum intersection

  lemma {:induction false} SubsetSize(a: set<Id>, b: set<Id>)
    requires a <= b
    ensures |a| <= |b|
  {
    if a != {} {
      var x :| x in a;
      SubsetSize(a - {x}, b - {x});
    }
  }

  lemma QuorumsMeet(masters: set<Id>, a: set<Id>, b: set<Id>)
    requires a <= masters && b <= masters && |a| >= Quorum(masters) && |b| >= Quorum(masters)
    ensures a * b != {}
  {
    if a * b == {} {
      assert |a + b| == |a| + |b|;
      SubsetSize(a + b, masters);
    }
  }

  /** Two clean wins of one epoch are by the same slave. */
  lemma InvSafe(masters: set<Id>, w: World, a: Win, b: Win)
    requires Inv(masters, w) && a in w.wins && b in w.wins && a.epoch == b.epoch && a.clean && b.clean
    ensures a.slave == b.slave
  {
    forall m | m in a.voters ensures m in masters { assert (m, a.epoch) in w.votes; }
    forall m | m in b.voters ensures m in masters { assert (m, b.epoch) in w.votes; }
    QuorumsMeet(masters, a.voters, b.voters);
    var m :| m in a.voters && m in b.voters;
    assert w.votes[(m, a.epoch)] == a.slave && w.votes[(m, b.epoch)] == b.slave;
  }

  /** Over every run: of two different winners of one epoch, one had counted an ACK between its last reset of the counter and its next request. */
  lemma TwoWinnersNeedLateAck(masters: set<Id>, w: World, steps: seq<Step>, w': World, a: Win, b: Win)
    requires Init(w) && Runs(false, masters, w, steps, w')
    requires a in w'.wins && b in w'.wins && a.epoch == b.epoch && a.slave != b.slave
    ensures !a.clean || !b.clean
  {
    InitInv(masters, w);
    RunInv(false, masters, w, steps, w');
    hide Inv;
    if a.clean && b.clean { InvSafe(masters, w', a, b); }
  }

  // ----- how votes come about

  /** The step is a request that reaches a master which may vote: it serves slots, has not voted in the
      request's epoch and knows no greater one, and has seen the asking slave's master fail, or is asked to
      vote by hand; it has not voted about that master recently, and no claimed slot has a newer owner. */
  predicate CastNow(w: World, step: Step, master: Id, epoch: nat, slave: Id) {
    && step.Deliver? && step.m == Request(slave, master, epoch) && step.m in w.net && master in w.nodes
    && w.nodes[master].currentEpoch <= epoch && w.nodes[master].lastVoteEpoch != epoch
    && step.view.votes && !step.view.asksAsMaster && step.view.masterKnown && (step.view.masterFailed || step.view.forced)
    && !step.view.votedRecently && step.view.slotsCurrent
  }

  /** A step changes the votes exactly if it is such a request, and then adds that vote. */
  lemma VoteIsCast(noStale: bool, masters: set<Id>, w: World, step: Step)
    requires Enabled(noStale, masters, w, step)
    ensures var w' := Next(noStale, masters, w, step);
            && (forall m, e, s :: CastNow(w, step, m, e, s) ==> w'.votes == w.votes[(m, e) := s] && w'.nodes[m].lastVoteEpoch == e && Ack(m, s, e) in w'.net)
            && ((forall m, e, s :: !CastNow(w, step, m, e, s)) ==> w'.votes == w.votes)
  {
    if step.Deliver? && step.m.Request? && Next(noStale, masters, w, step).votes != w.votes {
      assert CastNow(w, step, step.m.to, step.m.epoch, step.m.from);
    }
  }

  /** What the delivery of a message does besides. */
  lemma DeliverMeans(masters: set<Id>, w: World, m: Message, view: VoteView)
    requires m in w.net && m.to in w.nodes
    ensures var w', cast := DeliverTo(masters, w, m, view), CastNow(w, Deliver(m, view), m.to, m.epoch, m.from);
            && w'.net == w.net - multiset{m} + (if cast then multiset{Ack(m.to, m.from, m.epoch)} else multiset{})
            && w'.nodes == w.nodes[m.to := w'.nodes[m.to]]
            && w'.nodes[m.to].currentEpoch == Max(w.nodes[m.to].currentEpoch, m.epoch)
            && w'.nodes[m.to].lastVoteEpoch == (if cast then m.epoch else w.nodes[m.to].lastVoteEpoch)
            && w'.nodes[m.to].authCount == w.nodes[m.to].authCount + (if m.Ack? && m.from in masters && m.epoch >= w.nodes[m.to].authEpoch then 1 else 0)
            && w'.nodes[m.to].authEpoch == w.nodes[m.to].authEpoch && w'.nodes[m.to].authSent == w.nodes[m.to].authSent
            && w'.wins == w.wins
  {}

  /** What the timer of a slave does: ask all it has links to, win with a majority in time, or start afresh. */
  lemma TickMeans(masters: set<Id>, w: World, s: Id, v: FailoverView, links: set<Id>)
    requires s in w.nodes
    ensures var w', n, inTime := TickAt(masters, w, s, v, links), w.nodes[s], v.eligible && v.dataFresh && !v.retry && !v.delayed && !v.expired;
            && w'.nodes == w.nodes[s := w'.nodes[s]] && w'.votes == w.votes
            && (if inTime && !n.authSent then
                  && w'.nodes[s] == n.(currentEpoch := n.currentEpoch + 1, authEpoch := n.currentEpoch + 1, authSent := true)
                  && (forall d :: d in links ==> Request(s, d, n.currentEpoch + 1) in w'.net)
                else
                  && w'.nodes[s] == (if v.eligible && v.dataFresh && v.retry then n.(authCount := 0, authSent := false) else n)
                  && w'.net == w.net)
            && w'.wins == (if inTime && n.authSent && 2 * n.authCount > |masters|
                           then w.wins + {Win(s, n.authEpoch, CountedBy(w, s), s !in w.late)} else w.wins)
  {}

  /** Somewhere in the run that vote was cast. */
  ghost predicate CastIn(noStale: bool, masters: set<Id>, w: World, steps: seq<Step>, master: Id, epoch: nat, slave: Id)
    decreases |steps|
  {
    && steps != [] && Enabled(noStale, masters, w, steps[0])
    && (CastNow(w, steps[0], master, epoch, slave) || CastIn(noStale, masters, Next(noStale, masters, w, steps[0]), steps[1..], master, epoch, slave))
  }

  /** Over every run: every vote that is recorded was cast, under these conditions. */
  lemma {:induction false} VotesWereCast(noStale: bool, masters: set<Id>, w: World, steps: seq<Step>, w': World, master: Id, epoch: nat)
    requires Runs(noStale, masters, w, steps, w') && (master, epoch) in w'.votes
    ensures ((master, epoch) in w.votes && w.votes[(master, epoch)] == w'.votes[(master, epoch)])
            || CastIn(noStale, masters, w, steps, master, epoch, w'.votes[(master, epoch)])
    decreases |steps|
  {
    if steps != [] {
      VoteIsCast(noStale, masters, w, steps[0]);
      hide Enabled, Next, CastNow;
      VotesWereCast(noStale, masters, Next(noStale, masters, w, steps[0]), steps[1..], w', master, epoch);
    }
  }

  /** Election safety over every run in which no ACK of an abandoned attempt is counted late. */
  lemma ElectionSafety(masters: set<Id>, w: World, steps: seq<Step>, w': World)
    requires Init(w) && Runs(true, masters, w, steps, w')
    ensures Safe(w')
  {
    InitInv(masters, w);
    RunInv(true, masters, w, steps, w');
    CleanRun(masters, w, steps, w');
    forall a, b | a in w'.wins && b in w'.wins && a.epoch == b.epoch ensures a.slave == b.slave { InvSafe(masters, w', a, b); }
  }

  lemma {:induction false} RunsAppend(noStale: bool, masters: set<Id>, w: World, steps: seq<Step>, w1: World, step: Step)
    requires Runs(noStale, masters, w, steps, w1) && Enabled(noStale, masters, w1, step)
    ensures Runs(noStale, masters, w, steps + [step], Next(noStale, masters, w1, step))
    decreases |steps|
  {
    hide Next, Enabled;
    if steps == [] {
      assert (steps + [step])[1..] == [];
    } else {
      RunsAppend(noStale, masters, Next(noStale, masters, w, steps[0]), steps[1..], w1, step);
      assert (steps + [step])[1..] == steps[1..] + [step];
    }
  }
}
