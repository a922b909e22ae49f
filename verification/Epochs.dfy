/**
 Config epochs in the Redis Cluster control plane: every node keeps a table of the config epochs
 it knows, and a current epoch. Nodes exchange packets that arrive late, out of order or never, take
 over failed masters by election, and are reset.
 */
module Epochs {
  import opened Basics

  type Id = nat

  // ----- the epochs of one node

  /** A node's own name, its current epoch, and its table of config epochs, its own included. */
  datatype Table = Table(me: Id, currentEpoch: nat, epochs: map<Id, nat>)

  /** clusterProcessPacket, lines common to all packets from a known sender. */
  function SeeHeader(t: Table, sender: Id, currentEpoch: nat, configEpoch: nat): Table
    requires sender in t.epochs
  {
    t.(currentEpoch := Max(t.currentEpoch, currentEpoch), epochs := t.epochs[sender := Max(t.epochs[sender], configEpoch)])
  }

  /** clusterHandleConfigEpochCollision; a greater name is a greater id. */
  function Collide(t: Table, sender: Id, bothMasters: bool): Table
    requires sender in t.epochs && t.me in t.epochs
  {
    if t.epochs[sender] != t.epochs[t.me] || !bothMasters then t
    else if sender <= t.me then t
    else t.(currentEpoch := t.currentEpoch + 1, epochs := t.epochs[t.me := t.currentEpoch + 1])
  }

  /** The header of a ping, and the collision it may show. */
  function OnPing(t: Table, from: Id, currentEpoch: nat, configEpoch: nat, bothMasters: bool): Table
    requires from in t.epochs && t.me in t.epochs
  {
    var t' := SeeHeader(t, from, currentEpoch, configEpoch);
    if configEpoch == t'.epochs[t'.me] then Collide(t', from, bothMasters) else t'
  }

  /** An UPDATE about node `about`. */
  function Update(t: Table, about: Id, reported: nat): Table {
    if about !in t.epochs || t.epochs[about] >= reported then t
    else t.(epochs := t.epochs[about := reported])
  }

  /** The greatest epoch in the table, or the current epoch if it is greater. */
  ghost predicate IsMaxEpoch(t: Table, max: nat) {
    && max >= t.currentEpoch && (forall x :: x in t.epochs ==> t.epochs[x] <= max)
    && (max == t.currentEpoch || exists x :: x in t.epochs && t.epochs[x] == max)
  }

  /** clusterBumpConfigEpochWithoutConsensus, given the result of clusterGetMaxEpoch. */
  function Bump(t: Table, maxEpoch: nat): Table
    requires t.me in t.epochs
  {
    if t.epochs[t.me] == 0 || t.epochs[t.me] != maxEpoch
    then t.(currentEpoch := t.currentEpoch + 1, epochs := t.epochs[t.me := t.currentEpoch + 1])
    else t
  }

  /** CLUSTER SET-CONFIG-EPOCH. */
  function SetConfigEpoch(t: Table, epoch: nat): Table
    requires t.me in t.epochs
  {
    if |t.epochs| > 1 || t.epochs[t.me] != 0 then t
    else t.(epochs := t.epochs[t.me := epoch], currentEpoch := Max(t.currentEpoch, epoch))
  }

  /** A table is bounded when its current epoch is at least every config epoch in it. */
  ghost predicate Bounded(t: Table) {
    forall x :: x in t.epochs ==> t.epochs[x] <= t.currentEpoch
  }

  /** In a bounded table the search for the greatest epoch ends at currentEpoch. */
  lemma MaxIsCurrent(t: Table, max: nat)
    requires Bounded(t)
    ensures IsMaxEpoch(t, max) <==> max == t.currentEpoch
  {}

  /** A bump that changes anything gives a config epoch greater than every other one known. */
  lemma BumpIsGreatest(t: Table, x: Id)
    requires Bounded(t) && t.me in t.epochs && x in t.epochs && x != t.me
    requires Bump(t, t.currentEpoch) != t
    ensures Bump(t, t.currentEpoch).epochs[t.me] > Bump(t, t.currentEpoch).epochs[x]
  {}

  // ----- what else a node knows

  datatype Role = Master | Slave(of: Option<Id>)

  /** The table; this node's role; for every node known to be a slave its master, if that is known; the
      masters known to serve slots; the nodes flagged as failed; whether a manual failover may start;
      the cluster size as last computed; and the fields of elections. */
  datatype View = View(
    t: Table,
    role: Role,
    follows: map<Id, Option<Id>>,
    serving: set<Id>,
    failed: set<Id>,
    manual: bool,
    size: nat,
    lastVote: nat,
    authEpoch: nat,
    authCount: nat,
    authSent: bool)

  /** Every packet has a header: sender, its current epoch, and the config epoch of the sender or of its master. */
  datatype Message =
    | Ping(from: Id, currentEpoch: nat, configEpoch: nat, slaveof: Option<Id>, slots: bool)
    | UpdateMsg(from: Id, currentEpoch: nat, configEpoch: nat, about: Id, reported: nat)
    | FailMsg(from: Id, currentEpoch: nat, configEpoch: nat, about: Id)
    | Request(from: Id, currentEpoch: nat, configEpoch: nat, forced: bool)
    | Ack(from: Id, currentEpoch: nat, configEpoch: nat, to: Id)

  /** Whose config epoch and slots the header carries. */
  function Whose(v: View): Id {
    if v.role.Slave? && v.role.of.Some? then v.role.of.value else v.t.me
  }

  /** The conditions of clusterHandleSlaveFailover that are not about time: a known master that serves slots, and has failed or is failed over by hand. */
  predicate CanFailOver(v: View) {
    && v.role.Slave? && v.role.of.Some? && v.role.of.value in v.serving
    && (v.role.of.value in v.failed || v.manual)
  }

  /** clusterSendFailoverAuthIfNeeded: `owners` are those of the slots the request claims. */
  predicate Grants(v: View, m: Message, owners: set<Id>, votedRecently: bool)
    requires m.Request?
  {
    && v.role.Master? && v.t.me in v.serving
    && !(m.currentEpoch < v.t.currentEpoch) && v.lastVote != v.t.currentEpoch
    && m.from in v.follows && v.follows[m.from].Some? && (v.follows[m.from].value in v.failed || m.forced)
    && !votedRecently
    && (forall x :: x in owners && x in v.t.epochs ==> v.t.epochs[x] <= m.configEpoch)
  }

  predicate Counts(v: View, m: Message)
    requires m.Ack?
  {
    m.from in v.serving && m.from !in v.follows && m.currentEpoch >= v.authEpoch
  }

  // ----- steps

  /** Time, and which slots a claim binds, are inputs of a step. */
  datatype Step =
    | SendPing(h: nat)
    | SendUpdate(h: nat, about: Id)
    | SendFail(h: nat, about: Id)
    | Receive(h: nat, m: Message, binds: bool, owners: set<Id>, votedRecently: bool)
    | Learn(h: nat, id: Id)
    | Rename(h: nat, id: Id, name: Id)
    | Forget(h: nat, id: Id)
    | BumpEpoch(h: nat, maxEpoch: nat)
    | AssignEpoch(h: nat, epoch: nat)
    | AddSlots(h: nat)
    | LoseSlots(h: nat, id: Id)
    | Follow(h: nat, id: Id)
    | SetManual(h: nat, on: bool)
    | SetFailed(h: nat, id: Id, on: bool)
    | UpdateState(h: nat)
    | Retry(h: nat)
    | Elect(h: nat)
    | Win(h: nat)
    | TakeOver(h: nat, maxEpoch: nat)
    | Soft(h: nat)
    | Hard(h: nat, name: Id)

  /** What one node's step needs of that node; `Inv` keeps the tables well-formed. */
  ghost predicate Allowed(v: View, step: Step) {
    && v.t.me in v.t.epochs && Whose(v) in v.t.epochs
    && match step
       case SendPing(_) => true
       case SendUpdate(_, about) => about in v.t.epochs
       case SendFail(_, about) => about in v.failed
       case Receive(_, m, _, owners, _) => m.from in v.t.epochs && owners <= v.serving && (m.Ack? ==> m.to == v.t.me)
       case Learn(_, id) => id !in v.t.epochs
       case Rename(_, id, name) => id in v.t.epochs && id != v.t.me && name !in v.t.epochs
       case Forget(_, id) => id in v.t.epochs && id != v.t.me
       case BumpEpoch(_, max) => IsMaxEpoch(v.t, max)
       case AssignEpoch(_, _) => true
       case AddSlots(_) => true
       case LoseSlots(_, id) => true
       case Follow(_, id) => id in v.t.epochs && id != v.t.me && v.t.me !in v.serving
       case SetManual(_, on) => on ==> v.role.Slave? && v.role.of.Some?
       case SetFailed(_, id, _) => id in v.t.epochs && id != v.t.me
       case UpdateState(_) => true
       case Retry(_) => CanFailOver(v)
       case Elect(_) => CanFailOver(v) && !v.authSent
       case Win(_) => CanFailOver(v) && v.authSent && v.authCount >= v.size / 2 + 1
       case TakeOver(_, max) => v.role.Slave? && v.role.of.Some? && IsMaxEpoch(v.t, max)
       case Soft(_) => true
       case Hard(_, _) => true
  }

  /** What a packet does to the table. */
  function Hear(t: Table, m: Message, bothMasters: bool): Table
    requires t.me in t.epochs && m.from in t.epochs
  {
    var t' := SeeHeader(t, m.from, m.currentEpoch, m.configEpoch);
    match m
    case Ping(from, cur, conf, _, _) => OnPing(t, from, cur, conf, bothMasters)
    case UpdateMsg(_, _, _, about, reported) => Update(t', about, reported)
    case _ => t'
  }

  /** The roles a packet shows. */
  function Follows(v: View, m: Message): map<Id, Option<Id>> {
    match m
    case Ping(from, _, _, None, _) => v.follows - {from}
    case Ping(from, _, _, Some(x), _) =>
      v.follows[from := if x in v.t.epochs then Some(x) else if from in v.follows then v.follows[from] else None]
    case UpdateMsg(_, _, _, about, _) => v.follows - {about}
    case _ => v.follows
  }

  /** The masters known to serve slots, when the claim of a packet binds some. */
  function Serving(v: View, m: Message, binds: bool): set<Id> {
    match m
    case Ping(from, _, _, None, slots) => if slots && binds then v.serving + {from} else v.serving
    case Ping(from, _, _, Some(_), _) => v.serving - {from}
    case UpdateMsg(_, _, _, about, _) => if binds && about != v.t.me then v.serving + {about} else v.serving
    case _ => v.serving
  }

  function OnMessage(v: View, m: Message, binds: bool, owners: set<Id>, votedRecently: bool): View
    requires v.t.me in v.t.epochs && m.from in v.t.epochs
  {
    var v' := v.(t := Hear(v.t, m, v.role.Master? && m.Ping? && m.slaveof.None?));
    match m
    case Ping(_, _, _, _, _) => v'.(follows := Follows(v, m), serving := Serving(v, m, binds))
    case UpdateMsg(_, _, _, about, _) =>
      if v'.t == SeeHeader(v.t, m.from, m.currentEpoch, m.configEpoch) then v'   // nothing new
      else v'.(follows := Follows(v, m), serving := Serving(v, m, binds), role := if about == v.t.me then Master else v.role)
    case FailMsg(_, _, _, about) =>
      if about in v.t.epochs && about != v.t.me then v'.(failed := v.failed + {about}) else v'
    case Request(_, _, _, _) => if Grants(v', m, owners, votedRecently) then v'.(lastVote := v'.t.currentEpoch) else v'
    case Ack(_, _, _, _) => if Counts(v', m) then v'.(authCount := v.authCount + 1) else v'
  }

  /** clusterFailoverReplaceYourMaster. */
  function Promote(v: View): View {
    v.(role := Master, manual := false, serving := v.serving - (if v.role.Slave? && v.role.of.Some? then {v.role.of.value} else {}) + {v.t.me})
  }

  /** clusterReset: the other nodes are forgotten and this one is a master without slots. The fields of elections are left as they are. */
  function Reset(v: View, t: Table): View {
    v.(t := t, role := Master, follows := map[], serving := {}, failed := {}, manual := false)
  }

  function After(v: View, step: Step): View
    requires v.t.me in v.t.epochs
    requires step.Receive? ==> step.m.from in v.t.epochs
    requires step.Rename? || step.Forget? ==> step.id in v.t.epochs && step.id != v.t.me
  {
    match step
    case SendPing(_) => v
    case SendUpdate(_, _) => v
    case SendFail(_, _) => v
    case Receive(_, m, binds, owners, votedRecently) => OnMessage(v, m, binds, owners, votedRecently)
    case Learn(_, id) => v.(t := v.t.(epochs := v.t.epochs[id := 0]))
    case Rename(_, id, name) =>
      v.(t := v.t.(epochs := (v.t.epochs - {id})[name := v.t.epochs[id]]), role := if v.role == Slave(Some(id)) then Slave(Some(name)) else v.role)
    case Forget(_, id) =>
      v.(t := v.t.(epochs := v.t.epochs - {id}), role := if v.role == Slave(Some(id)) then Slave(None) else v.role,
         follows := v.follows - {id}, serving := v.serving - {id}, failed := v.failed - {id})
    case BumpEpoch(_, max) => v.(t := Bump(v.t, max))
    case AssignEpoch(_, epoch) => v.(t := SetConfigEpoch(v.t, epoch))
    case AddSlots(_) => v.(serving := v.serving + {v.t.me})
    case LoseSlots(_, id) => v.(serving := v.serving - {id})
    case Follow(_, id) => v.(role := Slave(Some(id)), manual := false)
    case SetManual(_, on) => v.(manual := on)
    case SetFailed(_, id, on) => v.(failed := if on then v.failed + {id} else v.failed - {id})
    case UpdateState(_) => v.(size := |v.serving|)
    case Retry(_) => v.(authCount := 0, authSent := false)
    case Elect(_) =>
      v.(t := v.t.(currentEpoch := v.t.currentEpoch + 1), authEpoch := v.t.currentEpoch + 1, authSent := true)
    case Win(_) =>
      Promote(v.(t := if v.t.epochs[v.t.me] < v.authEpoch then v.t.(epochs := v.t.epochs[v.t.me := v.authEpoch]) else v.t))
    case TakeOver(_, max) => Promote(v.(t := Bump(v.t, max)))
    case Soft(_) => Reset(v, v.t.(epochs := map[v.t.me := v.t.epochs[v.t.me]]))
    case Hard(_, name) => Reset(v, Table(name, 0, map[name := 0])).(lastVote := 0)
  }

  /** What a node sends in a step. */
  function Sent(v: View, step: Step): set<Message>
    requires v.t.me in v.t.epochs && Whose(v) in v.t.epochs
    requires step.Receive? ==> step.m.from in v.t.epochs
    requires step.SendUpdate? ==> step.about in v.t.epochs
  {
    var me, cur, conf := v.t.me, v.t.currentEpoch, v.t.epochs[Whose(v)];
    match step
    case SendPing(_) => {Ping(me, cur, conf, if v.role.Slave? then v.role.of else None, Whose(v) in v.serving)}
    case SendUpdate(_, about) => {UpdateMsg(me, cur, conf, about, v.t.epochs[about])}
    case SendFail(_, about) => {FailMsg(me, cur, conf, about)}
    case Elect(_) => {Request(me, cur + 1, conf, v.manual)}
    case Receive(_, m, _, owners, votedRecently) =>
      var v' := v.(t := SeeHeader(v.t, m.from, m.currentEpoch, m.configEpoch));
      if m.Request? && Grants(v', m, owners, votedRecently) then {Ack(me, v'.t.currentEpoch, v'.t.epochs[Whose(v)], m.from)} else {}
    case _ => {}
  }

  // ----- the system

  /** Hosts are fixed; names may change by hard reset. Messages are never removed, so each may be
      delivered late, repeatedly, to anyone, or not at all. */
  datatype World = World(hosts: seq<View>, net: set<Message>)

  ghost predicate Enabled(w: World, step: Step) {
    step.h < |w.hosts| && Allowed(w.hosts[step.h], step) && (step.Receive? ==> step.m in w.net)
  }

  ghost function Next(w: World, step: Step): World
    requires Enabled(w, step)
  {
    var v := w.hosts[step.h];
    World(w.hosts[step.h := After(v, step)], w.net + Sent(v, step))
  }

  ghost predicate Runs(w: World, steps: seq<Step>, w': World)
    decreases |steps|
  {
    if steps == [] then w == w' else Enabled(w, steps[0]) && Runs(Next(w, steps[0]), steps[1..], w')
  }

  /** A node has asked for votes and counted one, and has not given the attempt up. */
  predicate Pending(v: View) {
    v.authSent && v.authCount > 0
  }

  /** Somewhere in the run a node in the middle of such an attempt is reset hard. */
  ghost predicate ResetsPending(w: World, steps: seq<Step>)
    decreases |steps|
  {
    && steps != [] && Enabled(w, steps[0])
    && ((steps[0].Hard? && Pending(w.hosts[steps[0].h])) || ResetsPending(Next(w, steps[0]), steps[1..]))
  }

  /** A server that was just started. */
  function New(me: Id): View {
    View(Table(me, 0, map[me := 0]), Master, map[], {}, {}, false, 1, 0, 0, 0, false)
  }

  ghost predicate Init(w: World) {
    w.net == {} && forall i :: 0 <= i < |w.hosts| ==> w.hosts[i] == New(w.hosts[i].t.me)
  }

  // ----- the bound

  ghost predicate MessageBounded(m: Message) {
    m.configEpoch <= m.currentEpoch && (m.UpdateMsg? ==> m.reported <= m.currentEpoch)
  }

  ghost predicate AllBounded(w: World) {
    && (forall i :: 0 <= i < |w.hosts| ==> Bounded(w.hosts[i].t))
    && (forall m :: m in w.net ==> MessageBounded(m))
  }

  ghost predicate Kept(v: View) {
    Bounded(v.t) && v.t.me in v.t.epochs && Whose(v) in v.t.epochs && (Pending(v) ==> v.authEpoch <= v.t.currentEpoch)
  }

  ghost predicate Inv(w: World) {
    && (forall i :: 0 <= i < |w.hosts| ==> Kept(w.hosts[i]))
    && (forall m :: m in w.net ==> MessageBounded(m))
  }

  /** Every step keeps a table bounded, whatever bounded message it handles, but a hard reset in the middle of an election. */
  lemma AfterBounded(v: View, step: Step)
    requires Kept(v) && Allowed(v, step) && (step.Hard? ==> !Pending(v)) && (step.Receive? ==> MessageBounded(step.m))
    ensures Kept(After(v, step))
  {
    if step.Receive? {
      ReceiveBounded(v, step.m, step.binds, step.owners, step.votedRecently);
    } else if step.Learn? || step.Rename? || step.Forget? || step.Soft? || step.Hard? {
      MembersBounded(v, step);
    } else if step.BumpEpoch? || step.AssignEpoch? || step.TakeOver? || step.Elect? || step.Win? {
      OwnBounded(v, step);
    } else {
      hide OnMessage, IsMaxEpoch, Bounded;
    }
  }

  lemma MembersBounded(v: View, step: Step)
    requires Kept(v) && Allowed(v, step) && (step.Hard? ==> !Pending(v))
    requires step.Learn? || step.Rename? || step.Forget? || step.Soft? || step.Hard?
    ensures Kept(After(v, step))
  {
    hide OnMessage, IsMaxEpoch;
  }

  lemma OwnBounded(v: View, step: Step)
    requires Kept(v) && Allowed(v, step)
    requires step.BumpEpoch? || step.AssignEpoch? || step.TakeOver? || step.Elect? || step.Win?
    ensures Kept(After(v, step))
  {
    hide OnMessage, IsMaxEpoch;
  }

  lemma HearBounded(t: Table, m: Message, bothMasters: bool)
    requires Bounded(t) && t.me in t.epochs && m.from in t.epochs && MessageBounded(m)
    ensures var t' := Hear(t, m, bothMasters); Bounded(t') && t'.me == t.me && t'.epochs.Keys == t.epochs.Keys && t'.currentEpoch >= t.currentEpoch
  {}

  lemma ReceiveBounded(v: View, m: Message, binds: bool, owners: set<Id>, votedRecently: bool)
    requires Kept(v) && m.from in v.t.epochs && MessageBounded(m)
    ensures Kept(OnMessage(v, m, binds, owners, votedRecently))
  {
    HearBounded(v.t, m, v.role.Master? && m.Ping? && m.slaveof.None?);
    hide Hear, Follows, Serving, Grants, Counts, Bounded;
  }

  lemma SentBounded(v: View, step: Step)
    requires Kept(v) && Allowed(v, step) && (step.Receive? ==> MessageBounded(step.m))
    ensures forall m :: m in Sent(v, step) ==> MessageBounded(m)
  {
    hide Grants, IsMaxEpoch;
  }

  /** A packet makes this node vote exactly if it is a request that reaches a master with slots in an epoch
      in which it has not voted, from a slave whose master it knows and sees as failed, or by hand, and if
      no claimed slot has an owner with a newer config epoch. */
  lemma VotesExactly(v: View, h: nat, m: Message, binds: bool, owners: set<Id>, votedRecently: bool)
    requires Allowed(v, Receive(h, m, binds, owners, votedRecently))
    ensures var step := Receive(h, m, binds, owners, votedRecently);
            var known := SeeHeader(v.t, m.from, m.currentEpoch, m.configEpoch).epochs;
            var votes :=
              && m.Request? && v.role.Master? && v.t.me in v.serving
              && m.currentEpoch >= v.t.currentEpoch && v.lastVote != m.currentEpoch
              && m.from in v.follows && v.follows[m.from].Some? && (v.follows[m.from].value in v.failed || m.forced)
              && !votedRecently && forall x :: x in owners && x in known ==> known[x] <= m.configEpoch;
            && Sent(v, step) == (if votes then {Ack(v.t.me, m.currentEpoch, known[Whose(v)], m.from)} else {})
            && After(v, step).lastVote == (if votes then m.currentEpoch else v.lastVote)
  {}

  lemma StepInv(w: World, step: Step)
    requires Inv(w) && Enabled(w, step) && (step.Hard? ==> !Pending(w.hosts[step.h]))
    ensures Inv(Next(w, step))
  {
    var v := w.hosts[step.h];
    assert Kept(v);
    assert step.Receive? ==> MessageBounded(step.m);
    AfterBounded(v, step);
    SentBounded(v, step);
    hide After, Sent, Kept, MessageBounded;
    var w' := Next(w, step);
    forall i | 0 <= i < |w'.hosts| ensures Kept(w'.hosts[i]) {
      if i != step.h { assert Kept(w.hosts[i]); }
    }
  }

  lemma {:induction false} RunInv(w: World, steps: seq<Step>, w': World)
    requires Inv(w) && Runs(w, steps, w') && !ResetsPending(w, steps)
    ensures Inv(w')
    decreases |steps|
  {
    hide Next, Enabled, Inv;
    if steps != [] {
      StepInv(w, steps[0]);
      RunInv(Next(w, steps[0]), steps[1..], w');
    }
  }

  lemma InitInv(w: World)
    requires Init(w)
    ensures Inv(w)
  {
    forall i | 0 <= i < |w.hosts| ensures Kept(w.hosts[i]) { assert w.hosts[i] == New(w.hosts[i].t.me); }
  }

  /** In every state reached without such a reset every table and every message in flight is bounded by its epoch. */
  lemma EpochsBounded(w: World, steps: seq<Step>, w': World)
    requires Init(w) && Runs(w, steps, w') && !ResetsPending(w, steps)
    ensures AllBounded(w')
  {
    InitInv(w);
    RunInv(w, steps, w');
    forall i | 0 <= i < |w'.hosts| ensures Bounded(w'.hosts[i].t) { assert Kept(w'.hosts[i]); }
  }
}
