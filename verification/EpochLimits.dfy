/**
 A hard reset zeroes a node's epochs but not the fields of its last election. A node that has asked for
 votes and counted one, is reset, joins another cluster and fails over its new master there wins with
 the old votes and takes the old election's epoch, which can exceed its current epoch. Nothing else
 breaks the bound on config epochs.
 */
module EpochLimits {
  import opened Basics
  import opened Epochs

  // ----- runs under a rule for hard resets

  /** Which nodes may be reset hard. */
  type Rule = View -> bool

  function Anyone(): Rule {
    _ => true
  }

  ghost predicate Obeys(may: Rule, w: World, steps: seq<Step>)
    decreases |steps|
  {
    steps != [] ==>
      && Enabled(w, steps[0]) && (steps[0].Hard? ==> may(w.hosts[steps[0].h]))
      && Obeys(may, Next(w, steps[0]), steps[1..])
  }

  ghost predicate Reached(may: Rule, w: World) {
    exists w0, steps :: Init(w0) && Runs(w0, steps, w) && Obeys(may, w0, steps)
  }

  lemma {:induction false} RunsSnoc(may: Rule, w0: World, steps: seq<Step>, w: World, s: Step)
    requires Runs(w0, steps, w) && Obeys(may, w0, steps) && Enabled(w, s) && (s.Hard? ==> may(w.hosts[s.h]))
    ensures Runs(w0, steps + [s], Next(w, s)) && Obeys(may, w0, steps + [s])
    decreases |steps|
  {
    hide Next;
    if steps == [] {
      assert [s][1..] == [];
    } else {
      assert (steps + [s])[1..] == steps[1..] + [s];
      RunsSnoc(may, Next(w0, steps[0]), steps[1..], w, s);
    }
  }

  /** A step that a node may take in view v, with the view it leads to and what is sent. */
  ghost predicate Does(v: View, s: Step, v': View, sent: set<Message>) {
    Allowed(v, s) && After(v, s) == v' && Sent(v, s) == sent
  }

  /** One more step of the system. */
  lemma Go(may: Rule, w: World, s: Step, v': View, sent: set<Message>) returns (w': World)
    requires Reached(may, w) && s.h < |w.hosts| && Does(w.hosts[s.h], s, v', sent) && (s.Receive? ==> s.m in w.net)
    requires s.Hard? ==> may(w.hosts[s.h])
    ensures Reached(may, w') && w'.hosts == w.hosts[s.h := v'] && w'.net == w.net + sent
  {
    hide Allowed, After, Sent, Obeys;
    var w0, steps :| Init(w0) && Runs(w0, steps, w) && Obeys(may, w0, steps);
    w' := Next(w, s);
    RunsSnoc(may, w0, steps, w, s);
  }

  // ----- what every run keeps, resets or not

  ghost predicate Formed(v: View) {
    v.t.me in v.t.epochs && Whose(v) in v.t.epochs && (v.authSent ==> v.authEpoch > 0)
  }

  lemma AfterFormed(v: View, step: Step)
    requires Formed(v) && Allowed(v, step)
    ensures Formed(After(v, step))
  {
    hide IsMaxEpoch, Grants, Counts, CanFailOver;
    if step.Receive? {
      HearKeys(v.t, step.m, v.role.Master? && step.m.Ping? && step.m.slaveof.None?);
      hide Hear, Follows, Serving;
    }
  }

  lemma HearKeys(t: Table, m: Message, bothMasters: bool)
    requires t.me in t.epochs && m.from in t.epochs
    ensures Hear(t, m, bothMasters).me == t.me && Hear(t, m, bothMasters).epochs.Keys == t.epochs.Keys
  {}

  ghost predicate AllFormed(w: World) {
    forall i :: 0 <= i < |w.hosts| ==> Formed(w.hosts[i])
  }

  lemma {:induction false} RunFormed(w: World, steps: seq<Step>, w': World)
    requires AllFormed(w) && Runs(w, steps, w')
    ensures AllFormed(w')
    decreases |steps|
  {
    hide Allowed, After, Sent, Formed;
    if steps != [] {
      AfterFormed(w.hosts[steps[0].h], steps[0]);
      RunFormed(Next(w, steps[0]), steps[1..], w');
    }
  }

  lemma ReachedFormed(may: Rule, w: World)
    requires Reached(may, w)
    ensures AllFormed(w)
  {
    hide Runs, Obeys;
    var w0, steps :| Init(w0) && Runs(w0, steps, w) && Obeys(may, w0, steps);
    forall i | 0 <= i < |w0.hosts| ensures Formed(w0.hosts[i]) { assert w0.hosts[i] == New(w0.hosts[i].t.me); }
    RunFormed(w0, steps, w);
  }

  // ----- one more server does not matter

  function Wider(w: World, v: View): World {
    w.(hosts := w.hosts + [v])
  }

  lemma {:induction false} RunsWider(may: Rule, w: World, steps: seq<Step>, w': World, v: View)
    requires Runs(w, steps, w') && Obeys(may, w, steps)
    ensures Runs(Wider(w, v), steps, Wider(w', v)) && Obeys(may, Wider(w, v), steps)
    decreases |steps|
  {
    if steps != [] {
      hide Allowed, After, Sent;
      var s := steps[0];
      assert (w.hosts + [v])[s.h] == w.hosts[s.h];
      assert (w.hosts + [v])[s.h := After(w.hosts[s.h], s)] == w.hosts[s.h := After(w.hosts[s.h], s)] + [v];
      assert Next(Wider(w, v), s) == Wider(Next(w, s), v);
      RunsWider(may, Next(w, s), steps[1..], w', v);
    }
  }

  lemma ReachedWider(may: Rule, w: World, id: Id)
    requires Reached(may, w)
    ensures Reached(may, Wider(w, New(id)))
  {
    hide Runs, Obeys;
    var w0, steps :| Init(w0) && Runs(w0, steps, w) && Obeys(may, w0, steps);
    RunsWider(may, w0, steps, w, New(id));
    assert Init(Wider(w0, New(id)));
  }

  // ----- a hard reset in the middle of an election

  /** A master that serves slots. */
  function Server(me: Id): View {
    New(me).(serving := {me})
  }

  lemma ServerSteps(h: nat, me: Id)
    ensures Does(New(me), AddSlots(h), Server(me), {})
    ensures Does(Server(me), SendPing(h), Server(me), {Ping(me, 0, 0, None, true)})
  {}

  /** A node after a hard reset, called 1: the fields of the election are as they were. */
  function Wiped(v: View): View {
    View(Table(1, 0, map[1 := 0]), Master, map[], {}, {}, false, v.size, 0, v.authEpoch, v.authCount, v.authSent)
  }

  function Joined(v: View): View {
    Wiped(v).(t := Table(1, 0, map[1 := 0, 0 := 0]))
  }

  /** The node as a slave of 0. */
  function Again(v: View, manual: bool): View {
    Joined(v).(role := Slave(Some(0)), serving := {0}, size := 1, manual := manual)
  }

  function Won(v: View): View {
    Joined(v).(t := Table(1, 0, map[1 := v.authEpoch, 0 := 0]), serving := {1}, size := 1)
  }

  lemma ResetSteps(h: nat, v: View)
    requires Formed(v)
    ensures Does(v, Hard(h, 1), Wiped(v), {})
    ensures Does(Wiped(v), Learn(h, 0), Joined(v), {})
  {}

  lemma JoinSteps(h: nat, v: View)
    ensures Does(Joined(v), Receive(h, Ping(0, 0, 0, None, true), true, {}, false), Joined(v).(serving := {0}), {})
    ensures Does(Joined(v).(serving := {0}), UpdateState(h), Joined(v).(serving := {0}, size := 1), {})
  {
    assert {} + {0} == {0} && |{0}| == 1;
  }

  lemma FollowAgain(h: nat, v: View)
    ensures Does(Joined(v).(serving := {0}, size := 1), Follow(h, 0), Again(v, false), {})
    ensures Does(Again(v, false), SetManual(h, true), Again(v, true), {})
  {}

  lemma WinAgain(h: nat, v: View)
    requires Pending(v) && v.authEpoch > 0
    ensures Does(Again(v, true), Win(h), Won(v), {}) && !Bounded(Won(v).t)
  {
    assert {0} - {0} + {1} == {1};
    assert Won(v).t.epochs[1] == v.authEpoch;
  }

  /** With a new server that has announced its slots, and this node reset and joined to it. */
  lemma ResetAndJoin(may: Rule, w: World, h: nat) returns (w': World)
    requires Reached(may, w) && h < |w.hosts| && Formed(w.hosts[h]) && may(w.hosts[h])
    ensures Reached(may, w') && |w'.hosts| == |w.hosts| + 1 && w'.hosts[h] == Joined(w.hosts[h]) && Ping(0, 0, 0, None, true) in w'.net
  {
    hide Reached, Does, New, Server, Wiped, Joined, Formed;
    var v, g, ping := w.hosts[h], |w.hosts|, Ping(0, 0, 0, None, true);
    ReachedWider(may, w, 0);
    ServerSteps(g, 0);
    ResetSteps(h, v);
    w' := Go(may, Wider(w, New(0)), AddSlots(g), Server(0), {});
    w' := Go(may, w', SendPing(g), Server(0), {ping});
    w' := Go(may, w', Hard(h, 1), Wiped(v), {});
    w' := Go(may, w', Learn(h, 0), Joined(v), {});
  }

  lemma FollowAndWin(may: Rule, w: World, h: nat, v: View) returns (w': World)
    requires Reached(may, w) && h < |w.hosts| && w.hosts[h] == Joined(v) && Ping(0, 0, 0, None, true) in w.net && Pending(v) && v.authEpoch > 0
    ensures Reached(may, w') && !AllBounded(w')
  {
    hide Reached, Does, Bounded, Joined, Again, Won;
    var ping := Ping(0, 0, 0, None, true);
    JoinSteps(h, v);
    FollowAgain(h, v);
    WinAgain(h, v);
    w' := Go(may, w, Receive(h, ping, true, {}, false), Joined(v).(serving := {0}), {});
    w' := Go(may, w', UpdateState(h), Joined(v).(serving := {0}, size := 1), {});
    w' := Go(may, w', Follow(h, 0), Again(v, false), {});
    w' := Go(may, w', SetManual(h, true), Again(v, true), {});
    w' := Go(may, w', Win(h), Won(v), {});
    assert !Bounded(w'.hosts[h].t);
  }

  /** Whatever the run, if a node with a pending election may be reset hard, the bound can fail. */
  lemma PendingResetBreaks(may: Rule, w: World, h: nat) returns (w': World)
    requires Reached(may, w) && h < |w.hosts| && Pending(w.hosts[h]) && may(w.hosts[h])
    ensures Reached(may, w') && !AllBounded(w')
  {
    hide Reached, AllBounded, Joined;
    ReachedFormed(may, w);
    assert Formed(w.hosts[h]);
    w' := ResetAndJoin(may, w, h);
    w' := FollowAndWin(may, w', h, w.hosts[h]);
  }

  // ----- the exact condition

  ghost predicate AlwaysBounded(may: Rule) {
    forall w :: Reached(may, w) ==> AllBounded(w)
  }

  /** In no reachable state is there a node that may be reset hard in the middle of an election. */
  ghost predicate SparesPending(may: Rule) {
    forall w, h :: Reached(may, w) && 0 <= h < |w.hosts| && Pending(w.hosts[h]) ==> !may(w.hosts[h])
  }

  /** If a run resets a pending node, the rule lets it. */
  lemma {:induction false} ResetIsLet(may: Rule, w0: World, steps: seq<Step>, w: World, more: seq<Step>)
    requires Init(w0) && Runs(w0, steps, w) && Obeys(may, w0, steps) && Obeys(may, w, more) && ResetsPending(w, more)
    ensures !SparesPending(may)
    decreases |more|
  {
    hide Allowed, After, Sent, Init, Runs;
    var s := more[0];
    if s.Hard? && Pending(w.hosts[s.h]) {
      assert Reached(may, w);
    } else {
      RunsSnoc(may, w0, steps, w, s);
      ResetIsLet(may, w0, steps + [s], Next(w, s), more[1..]);
    }
  }

  /** Over every run: if the bound fails, a node was reset hard with a request pending and a vote counted. */
  lemma UnboundedNeedsReset(w: World, steps: seq<Step>, w': World)
    requires Init(w) && Runs(w, steps, w') && !AllBounded(w')
    ensures ResetsPending(w, steps)
  {
    hide Init, Runs, ResetsPending, AllBounded;
    if !ResetsPending(w, steps) { EpochsBounded(w, steps, w'); }
  }

  /** Under whatever rule, the bound holds in all runs exactly when no node with a request pending and a vote counted is ever reset hard. */
  lemma BoundedIffSparesPending(may: Rule)
    ensures AlwaysBounded(may) <==> SparesPending(may)
  {
    hide AllBounded, Init, Runs, Obeys;
    if SparesPending(may) {
      forall w | Reached(may, w) ensures AllBounded(w) {
        var w0, steps :| Init(w0) && Runs(w0, steps, w) && Obeys(may, w0, steps);
        if !AllBounded(w) {
          UnboundedNeedsReset(w0, steps, w);
          NoSteps(may, w0);
          ResetIsLet(may, w0, [], w0, steps);
        }
      }
    } else {
      var w, h :| Reached(may, w) && 0 <= h < |w.hosts| && Pending(w.hosts[h]) && may(w.hosts[h]);
      var w' := PendingResetBreaks(may, w, h);
      assert Reached(may, w') && !AllBounded(w');
    }
  }

  lemma NoSteps(may: Rule, w: World)
    ensures Runs(w, [], w) && Obeys(may, w, [])
  {}

  // ----- such a run: 5 is a slave of 1, and 2 another master

  const PingOf1: Message := Ping(1, 0, 0, None, true)
  const PingOf2: Message := Ping(2, 0, 0, None, true)
  const PingOf5: Message := Ping(5, 0, 0, Some(1), true)
  const RequestOf5: Message := Request(5, 1, 0, true)
  const AckOf2: Message := Ack(2, 1, 0, 5)

  /** Node 5 when it knows the masters 1 and 2. */
  const Knows: View := New(5).(t := Table(5, 0, map[5 := 0, 1 := 0, 2 := 0]), serving := {1, 2}, size := 2)

  /** Node 5 follows 1, and is to take it over by hand. */
  const Following: View := Knows.(role := Slave(Some(1)), manual := true)

  /** Node 5 has asked for votes in epoch 1. */
  const Asking: View := Following.(t := Table(5, 1, map[5 := 0, 1 := 0, 2 := 0]), authEpoch := 1, authSent := true)

  /** Node 2 when it knows that 5 is a slave of 1. */
  const Voter: View := Server(2).(t := Table(2, 0, map[2 := 0, 5 := 0, 1 := 0]), follows := map[5 := Some(1)])

  // ----- the steps, one by one

  function Meets(ids: map<Id, nat>): View {
    New(5).(t := Table(5, 0, ids))
  }

  const All: map<Id, nat> := map[5 := 0, 1 := 0, 2 := 0]

  lemma LearnSteps()
    ensures Does(New(5), Learn(0, 1), Meets(map[5 := 0, 1 := 0]), {})
    ensures Does(Meets(map[5 := 0, 1 := 0]), Learn(0, 2), Meets(All), {})
  {}

  lemma HearSteps()
    ensures Does(Meets(All), Receive(0, PingOf1, true, {}, false), Meets(All).(serving := {1}), {})
    ensures Does(Meets(All).(serving := {1}), Receive(0, PingOf2, true, {}, false), Meets(All).(serving := {1, 2}), {})
  {
    assert {1} + {2} == {1, 2} && {} + {1} == {1};
  }

  lemma SizeStep()
    ensures Does(Meets(All).(serving := {1, 2}), UpdateState(0), Knows, {})
  {
    assert |{1, 2}| == 2;
  }

  const Slave5: View := Knows.(role := Slave(Some(1)))

  lemma FollowSteps()
    ensures Does(Knows, Follow(0, 1), Slave5, {})
    ensures Does(Slave5, SendPing(0), Slave5, {PingOf5})
  {}

  lemma AskSteps()
    ensures Does(Slave5, SetManual(0, true), Following, {})
    ensures Does(Following, Retry(0), Following, {})
    ensures Does(Following, Elect(0), Asking, {RequestOf5})
  {}

  function Knowing(ids: map<Id, nat>): View {
    Server(2).(t := Table(2, 0, ids))
  }

  lemma VoterLearns()
    ensures Does(Server(2), Learn(2, 5), Knowing(map[2 := 0, 5 := 0]), {})
    ensures Does(Knowing(map[2 := 0, 5 := 0]), Learn(2, 1), Knowing(map[2 := 0, 5 := 0, 1 := 0]), {})
  {}

  lemma VoterHears()
    ensures Does(Knowing(map[2 := 0, 5 := 0, 1 := 0]), Receive(2, PingOf5, true, {}, false), Voter, {})
  {
    assert {2} - {5} == {2};
  }

  const Voted: View := Voter.(t := Table(2, 1, map[2 := 0, 5 := 0, 1 := 0]), lastVote := 1)

  lemma VoteStep()
    ensures Does(Voter, Receive(2, RequestOf5, false, {}, false), Voted, {AckOf2})
  {}

  lemma CountStep()
    ensures Does(Asking, Receive(0, AckOf2, false, {}, false), Asking.(authCount := 1), {})
  {}

  // ----- the run

  lemma Beginning(may: Rule) returns (w: World)
    ensures Reached(may, w) && |w.hosts| == 3 && w.hosts[0] == New(5) && w.hosts[1] == New(1) && w.hosts[2] == New(2)
  {
    w := World([New(5), New(1), New(2)], {});
    assert Init(w) && Runs(w, [], w) && Obeys(may, w, []);
  }

  lemma Servers(may: Rule) returns (w: World)
    ensures Reached(may, w) && |w.hosts| == 3 && w.hosts[0] == New(5) && w.hosts[2] == Server(2) && {PingOf1, PingOf2} <= w.net
  {
    hide Reached, Does;
    w := Beginning(may);
    ServerSteps(1, 1);
    ServerSteps(2, 2);
    w := Go(may, w, AddSlots(1), Server(1), {});
    w := Go(may, w, AddSlots(2), Server(2), {});
    w := Go(may, w, SendPing(1), Server(1), {PingOf1});
    w := Go(may, w, SendPing(2), Server(2), {PingOf2});
  }

  lemma Meeting(may: Rule, w: World) returns (w': World)
    requires Reached(may, w) && |w.hosts| == 3 && w.hosts[0] == New(5) && w.hosts[2] == Server(2) && {PingOf1, PingOf2} <= w.net
    ensures Reached(may, w') && |w'.hosts| == 3 && w'.hosts[0] == Knows && w'.hosts[2] == Server(2)
  {
    hide Reached, Does;
    LearnSteps();
    HearSteps();
    SizeStep();
    w' := Go(may, w, Learn(0, 1), Meets(map[5 := 0, 1 := 0]), {});
    w' := Go(may, w', Learn(0, 2), Meets(All), {});
    w' := Go(may, w', Receive(0, PingOf1, true, {}, false), Meets(All).(serving := {1}), {});
    w' := Go(may, w', Receive(0, PingOf2, true, {}, false), Meets(All).(serving := {1, 2}), {});
    w' := Go(may, w', UpdateState(0), Knows, {});
  }

  lemma Hearing(may: Rule, w: World) returns (w': World)
    requires Reached(may, w) && |w.hosts| == 3 && w.hosts[0] == Knows && w.hosts[2] == Server(2)
    ensures Reached(may, w') && |w'.hosts| == 3 && w'.hosts[0] == Slave5 && w'.hosts[2] == Voter
  {
    hide Reached, Does, Server, Knowing;
    FollowSteps();
    VoterLearns();
    VoterHears();
    w' := Go(may, w, Follow(0, 1), Slave5, {});
    w' := Go(may, w', SendPing(0), Slave5, {PingOf5});
    w' := Go(may, w', Learn(2, 5), Knowing(map[2 := 0, 5 := 0]), {});
    w' := Go(may, w', Learn(2, 1), Knowing(map[2 := 0, 5 := 0, 1 := 0]), {});
    w' := Go(may, w', Receive(2, PingOf5, true, {}, false), Voter, {});
  }

  lemma Voting(may: Rule, w: World) returns (w': World)
    requires Reached(may, w) && |w.hosts| == 3 && w.hosts[0] == Slave5 && w.hosts[2] == Voter
    ensures Reached(may, w') && |w'.hosts| == 3 && w'.hosts[0] == Asking && w'.hosts[2] == Voter && RequestOf5 in w'.net
  {
    hide Reached, Does;
    AskSteps();
    w' := Go(may, w, SetManual(0, true), Following, {});
    w' := Go(may, w', Retry(0), Following, {});
    w' := Go(may, w', Elect(0), Asking, {RequestOf5});
  }

  lemma Counting(may: Rule, w: World) returns (w': World)
    requires Reached(may, w) && |w.hosts| == 3 && w.hosts[0] == Asking && w.hosts[2] == Voter && RequestOf5 in w.net
    ensures Reached(may, w') && |w'.hosts| == 3 && w'.hosts[0] == Asking.(authCount := 1)
  {
    hide Reached, Does;
    VoteStep();
    CountStep();
    w' := Go(may, w, Receive(2, RequestOf5, false, {}, false), Voted, {AckOf2});
    w' := Go(may, w', Receive(0, AckOf2, false, {}, false), Asking.(authCount := 1), {});
  }

  /** Nodes get there: under every rule a state is reached in which a node has a request pending and a vote counted. */
  lemma PendingReached(may: Rule) returns (w: World)
    ensures Reached(may, w) && |w.hosts| == 3 && Pending(w.hosts[0])
  {
    hide Reached;
    w := Servers(may);
    w := Meeting(may, w);
    w := Hearing(may, w);
    w := Voting(may, w);
    w := Counting(may, w);
  }

  /** A run from new servers: a vote counted before the reset wins the new cluster's failover, with the old election's epoch. */
  lemma HardResetRun() returns (w: World, steps: seq<Step>, w': World)
    ensures Init(w) && Runs(w, steps, w') && !AllBounded(w')
  {
    hide Reached, AllBounded;
    w' := PendingReached(Anyone());
    w' := PendingResetBreaks(Anyone(), w', 0);
    w, steps := RunOf(Anyone(), w');
  }

  lemma RunOf(may: Rule, w': World) returns (w: World, steps: seq<Step>)
    requires Reached(may, w')
    ensures Init(w) && Runs(w, steps, w') && Obeys(may, w, steps)
  {
    w, steps :| Init(w) && Runs(w, steps, w') && Obeys(may, w, steps);
  }
}
