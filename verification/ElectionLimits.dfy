/**
 Why the assumption on late ACKs is needed. The counter of received votes is cleared when an
 election is scheduled, but not when the request for the new epoch goes out, so ACKs of the
 abandoned attempt that arrive in between are counted in the next one.
 */
module ElectionLimits {
  import opened Election

  const MASTERS: set<Id> := {1, 2, 3}
  const YES := VoteView(true, false, true, true, false, false, true)
  const NO := VoteView(false, false, true, true, false, false, true)
  const START := FailoverView(true, true, false, false, false)
  const RESET := FailoverView(true, true, true, false, false)
  const IDLE := Node(0, 0, 0, 0, false)

  /** `w'` is reached from `w` by a run in which stale ACKs are not excluded. */
  ghost predicate Reaches(w: World, w': World) {
    exists steps :: Runs(false, MASTERS, w, steps, w')
  }

  /** Three masters and two of their slaves, before anything happened. */
  ghost predicate AllIdle(w: World) {
    && w.nodes.Keys == {1, 2, 3, 10, 11} && w.net == multiset{}
    && forall i :: i in w.nodes ==> w.nodes[i] == IDLE
  }

  lemma ReachesMore(w: World, w1: World, step: Step)
    requires Reaches(w, w1) && Enabled(false, MASTERS, w1, step)
    ensures Reaches(w, Next(false, MASTERS, w1, step))
  {
    var steps :| Runs(false, MASTERS, w, steps, w1);
    RunsAppend(false, MASTERS, w, steps, w1, step);
  }

  /** A master that has not voted in epoch `e` grants the request. */
  lemma VoteStep(w0: World, w: World, from: Id, to: Id, e: nat) returns (w': World)
    requires Reaches(w0, w) && to in MASTERS && to in w.nodes && Request(from, to, e) in w.net
    requires w.nodes[to].currentEpoch <= e && w.nodes[to].lastVoteEpoch < e
    ensures Reaches(w0, w') && w'.wins == w.wins
    ensures w'.nodes == w.nodes[to := w.nodes[to].(currentEpoch := e, lastVoteEpoch := e)]
    ensures w'.net == w.net - multiset{Request(from, to, e)} + multiset{Ack(to, from, e)}
  {
    var step := Deliver(Request(from, to, e), YES);
    w' := Next(false, MASTERS, w, step);
    ReachesMore(w0, w, step);
  }

  /** An ACK whose epoch is the recorded one is counted, whether or not a request is pending. */
  lemma AckStep(w0: World, w: World, from: Id, to: Id, e: nat) returns (w': World)
    requires Reaches(w0, w) && from in MASTERS && to in w.nodes && Ack(from, to, e) in w.net
    requires w.nodes[to].authEpoch <= e <= w.nodes[to].currentEpoch
    ensures Reaches(w0, w') && w'.wins == w.wins
    ensures w'.nodes == w.nodes[to := w.nodes[to].(authCount := w.nodes[to].authCount + 1)]
    ensures w'.net == w.net - multiset{Ack(from, to, e)}
  {
    var step := Deliver(Ack(from, to, e), NO);
    assert SeeEpoch(w.nodes[to], e) == w.nodes[to];
    hide Reaches;
    ReachesMore(w0, w, step);
    w' := Next(false, MASTERS, w, step);
  }

  lemma HearStep(w0: World, w: World, from: Id, to: Id, e: nat) returns (w': World)
    requires Reaches(w0, w) && to in w.nodes && Request(from, to, e) in w.net && w.nodes[to].currentEpoch <= e
    ensures Reaches(w0, w') && w'.wins == w.wins
    ensures w'.nodes == w.nodes[to := w.nodes[to].(currentEpoch := e)]
    ensures w'.net == w.net - multiset{Request(from, to, e)}
  {
    var step := Deliver(Request(from, to, e), NO);
    w' := Next(false, MASTERS, w, step);
    ReachesMore(w0, w, step);
  }

  lemma StartStep(w0: World, w: World, s: Id, links: set<Id>) returns (w': World)
    requires Reaches(w0, w) && s in w.nodes && links <= w.nodes.Keys && !w.nodes[s].authSent
    ensures var e := w.nodes[s].currentEpoch + 1;
            && Reaches(w0, w') && w'.wins == w.wins
            && w'.nodes == w.nodes[s := w.nodes[s].(currentEpoch := e, authEpoch := e, authSent := true)]
            && w'.net == w.net + Requests(s, e, links)
  {
    hide Reaches, Requests, CountedBy;
    var step := Tick(s, START, links);
    ReachesMore(w0, w, step);
    w' := Next(false, MASTERS, w, step);
  }

  lemma ResetStep(w0: World, w: World, s: Id) returns (w': World)
    requires Reaches(w0, w) && s in w.nodes
    ensures Reaches(w0, w') && w'.wins == w.wins && w'.net == w.net
    ensures w'.nodes == w.nodes[s := w.nodes[s].(authCount := 0, authSent := false)]
  {
    var step := Tick(s, RESET, {});
    w' := Next(false, MASTERS, w, step);
    ReachesMore(w0, w, step);
  }

  lemma WinStep(w0: World, w: World, s: Id) returns (w': World, win: Win)
    requires Reaches(w0, w) && s in w.nodes && w.nodes[s].authSent && w.nodes[s].authCount >= 2
    ensures Reaches(w0, w') && w'.nodes == w.nodes
    ensures win.slave == s && win.epoch == w.nodes[s].authEpoch && w'.wins == w.wins + {win}
  {
    var step := Tick(s, START, {});
    assert |MASTERS| == 3;
    w' := Next(false, MASTERS, w, step);
    win := Win(s, w.nodes[s].authEpoch, CountedBy(w, s), s !in w.late);
    ReachesMore(w0, w, step);
    assert w.nodes[s := w.nodes[s]] == w.nodes;
  }

  lemma RequestsTo(s: Id, e: nat, links: set<Id>, d: Id)
    requires d in links
    ensures Request(s, d, e) in Requests(s, e, links)
  {
    assert Request(s, d, e) in (set x | x in links :: Request(s, x, e));
  }

  /** Slave 10 asks for votes in epoch 1; masters 1 and 2 grant them. */
  lemma FirstVotes(w: World) returns (w': World)
    requires Reaches(w, w) && AllIdle(w)
    ensures Reaches(w, w') && w'.wins == w.wins && w'.nodes.Keys == w.nodes.Keys
    ensures w'.nodes[1] == Node(1, 1, 0, 0, false) && w'.nodes[2] == Node(1, 1, 0, 0, false)
    ensures w'.nodes[10] == Node(1, 0, 1, 0, true) && w'.nodes[11] == IDLE
    ensures Ack(1, 10, 1) in w'.net && Ack(2, 10, 1) in w'.net && Request(10, 11, 1) in w'.net
  {
    hide Reaches, Requests;
    var w1 := StartStep(w, w, 10, {1, 2, 11});
    RequestsTo(10, 1, {1, 2, 11}, 1);
    RequestsTo(10, 1, {1, 2, 11}, 2);
    RequestsTo(10, 1, {1, 2, 11}, 11);
    var w2 := VoteStep(w, w1, 10, 1, 1);
    w' := VoteStep(w, w2, 10, 2, 1);
  }

  /** The two votes are still in flight when slave 10 gives up, and are counted afterwards. */
  lemma FirstAttempt(w: World) returns (w': World)
    requires Reaches(w, w) && AllIdle(w)
    ensures Reaches(w, w') && w'.wins == w.wins && w'.nodes.Keys == w.nodes.Keys
    ensures w'.nodes[1] == Node(1, 1, 0, 0, false) && w'.nodes[2] == Node(1, 1, 0, 0, false)
    ensures w'.nodes[10] == Node(1, 0, 1, 2, false) && w'.nodes[11] == Node(1, 0, 0, 0, false)
  {
    hide Reaches;
    var w3 := FirstVotes(w);
    var w4 := HearStep(w, w3, 10, 11, 1);
    var w5 := ResetStep(w, w4, 10);
    var w6 := AckStep(w, w5, 1, 10, 1);
    w' := AckStep(w, w6, 2, 10, 1);
  }

  /** Both slaves open epoch 2; the two masters vote for slave 11 only. */
  lemma SecondVotes(w: World) returns (w': World)
    requires Reaches(w, w) && AllIdle(w)
    ensures Reaches(w, w') && w'.wins == w.wins && w'.nodes.Keys == w.nodes.Keys
    ensures w'.nodes[10] == Node(2, 0, 2, 2, true) && w'.nodes[11] == Node(2, 0, 2, 0, true)
    ensures Ack(1, 11, 2) in w'.net && Ack(2, 11, 2) in w'.net
  {
    hide Reaches, Requests;
    var w1 := FirstAttempt(w);
    var w2 := StartStep(w, w1, 10, {});
    var w3 := StartStep(w, w2, 11, {1, 2});
    RequestsTo(11, 2, {1, 2}, 1);
    RequestsTo(11, 2, {1, 2}, 2);
    var w4 := VoteStep(w, w3, 11, 1, 2);
    w' := VoteStep(w, w4, 11, 2, 2);
  }

  /** Slave 10 wins epoch 2 without a single vote for it, and slave 11 wins the same epoch with two. */
  lemma TwoWinners(w: World) returns (w': World, a: Win, b: Win)
    requires Reaches(w, w) && AllIdle(w)
    ensures Reaches(w, w') && a in w'.wins && b in w'.wins && a.epoch == b.epoch == 2 && a.slave == 10 && b.slave == 11
  {
    hide Reaches;
    var w5 := SecondVotes(w);
    var w6 := AckStep(w, w5, 1, 11, 2);
    var w7 := AckStep(w, w6, 2, 11, 2);
    var w8;
    w8, a := WinStep(w, w7, 10);
    w', b := WinStep(w, w8, 11);
  }

  /** Every run from an initial state, for every set of masters, is safe. */
  ghost predicate AlwaysSafe(noStale: bool) {
    forall masters, w, steps, w' :: Init(w) && Runs(noStale, masters, w, steps, w') ==> Safe(w')
  }

  /** The code elects at most one slave per epoch exactly when late ACKs of abandoned attempts are excluded. */
  lemma SafeIffNoStaleAcks(noStale: bool)
    ensures AlwaysSafe(noStale) <==> noStale
  {
    if noStale {
      forall masters, w, steps, w' | Init(w) && Runs(true, masters, w, steps, w') ensures Safe(w') {
        ElectionSafety(masters, w, steps, w');
      }
    } else {
      var w := World(map[1 := IDLE, 2 := IDLE, 3 := IDLE, 10 := IDLE, 11 := IDLE], multiset{}, map[], map[], {}, {});
      assert Runs(false, MASTERS, w, [], w);
      var w', a, b := TwoWinners(w);
      var steps :| Runs(false, MASTERS, w, steps, w');
      assert Init(w) && !Safe(w');
    }
  }
}
