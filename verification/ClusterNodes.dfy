/**
 Failure reports and the removal of a node: afterwards nothing refers to it.
 */
module ClusterNodes {
  import opened Basics
  import opened Bitmap
  import opened SlotTable

  /** The reports that are not too old. */
  function Recent(reports: seq<Report>, now: int, maxtime: int): seq<Report> {
    if reports == [] then []
    else if now - reports[0].time > maxtime then Recent(reports[1..], now, maxtime)
    else [reports[0]] + Recent(reports[1..], now, maxtime)
  }

  lemma {:induction false} RecentMeaning(reports: seq<Report>, now: int, maxtime: int)
    ensures forall r :: r in Recent(reports, now, maxtime) <==> r in reports && now - r.time <= maxtime
  {
    if reports != [] { RecentMeaning(reports[1..], now, maxtime); }
  }

  /** `b` is `a` at the places `at`: in order, and exactly those that are not too old. */
  ghost predicate Picks(a: seq<Report>, b: seq<Report>, at: seq<nat>, now: int, maxtime: int) {
    && |at| == |b| && (forall i, k :: 0 <= i < k < |at| ==> at[i] < at[k])
    && (forall i :: 0 <= i < |at| ==> at[i] < |a| && b[i] == a[at[i]])
    && (forall j :: 0 <= j < |a| ==> (now - a[j].time <= maxtime <==> j in at))
  }

  lemma PicksSnoc(a: seq<Report>, b: seq<Report>, at: seq<nat>, r: Report, now: int, maxtime: int)
    requires Picks(a, b, at, now, maxtime)
    ensures now - r.time <= maxtime ==> Picks(a + [r], b + [r], at + [|a|], now, maxtime)
    ensures now - r.time > maxtime ==> Picks(a + [r], b, at, now, maxtime)
  {
    if now - r.time <= maxtime {
      forall j | 0 <= j < |a| + 1 ensures now - (a + [r])[j].time <= maxtime <==> j in at + [|a|] {}
    } else {
      assert forall j :: j in at ==> j < |a|;
      forall j | 0 <= j < |a| + 1 ensures now - (a + [r])[j].time <= maxtime <==> j in at {}
    }
  }

  lemma {:induction false} RecentPicks(reports: seq<Report>, now: int, maxtime: int) returns (at: seq<nat>)
    ensures Picks(reports, Recent(reports, now, maxtime), at, now, maxtime)
  {
    at := [];
    if reports != [] {
      var last := |reports| - 1;
      assert reports == reports[..last] + [reports[last]];
      RecentSnoc(reports[..last], reports[last], now, maxtime);
      hide Recent, Picks;
      var before := RecentPicks(reports[..last], now, maxtime);
      PicksSnoc(reports[..last], Recent(reports[..last], now, maxtime), before, reports[last], now, maxtime);
      at := if now - reports[last].time <= maxtime then before + [last] else before;
    }
  }

  lemma {:induction false} RecentReports(reports: seq<Report>, now: int, maxtime: int, known: set<Id>)
    requires ReportsFrom(reports, known)
    ensures ReportsFrom(Recent(reports, now, maxtime), known)
  {
    if reports != [] {
      var rest := Recent(reports[1..], now, maxtime);
      RecentReports(reports[1..], now, maxtime, known);
      RecentMeaning(reports[1..], now, maxtime);
      hide Recent;
      forall i | 0 <= i < |rest| ensures rest[i].sender != reports[0].sender { assert rest[i] in reports[1..]; }
    }
  }

  lemma {:induction false} RecentSnoc(reports: seq<Report>, r: Report, now: int, maxtime: int)
    ensures Recent(reports + [r], now, maxtime) == Recent(reports, now, maxtime) + (if now - r.time > maxtime then [] else [r])
  {
    if reports != [] {
      assert (reports + [r])[1..] == reports[1..] + [r];
      RecentSnoc(reports[1..], r, now, maxtime);
    }
  }

  predicate HasReport(reports: seq<Report>, sender: Id) {
    exists i :: 0 <= i < |reports| && reports[i].sender == sender
  }

  /** The report of `sender` is dropped, and with it the old ones; without such a report nothing changes. */
  function Withdrawn(reports: seq<Report>, sender: Id, now: int, maxtime: int): seq<Report> {
    if HasReport(reports, sender) then Recent(DropFirst(reports, sender), now, maxtime) else reports
  }

  function DropFirst(reports: seq<Report>, sender: Id): seq<Report> {
    if reports == [] then [] else if reports[0].sender == sender then reports[1..] else [reports[0]] + DropFirst(reports[1..], sender)
  }

  lemma {:induction false} DropFirstAt(reports: seq<Report>, sender: Id, j: nat)
    requires j < |reports| && reports[j].sender == sender && forall i :: 0 <= i < j ==> reports[i].sender != sender
    ensures DropFirst(reports, sender) == reports[..j] + reports[j + 1..]
  {
    if j > 0 {
      DropFirstAt(reports[1..], sender, j - 1);
      assert [reports[0]] + (reports[1..][..j - 1] + reports[1..][j..]) == reports[..j] + reports[j + 1..];
    }
  }

  lemma {:induction false} DropFirstReports(reports: seq<Report>, sender: Id, known: set<Id>)
    requires ReportsFrom(reports, known)
    ensures ReportsFrom(DropFirst(reports, sender), known - {sender})
    ensures forall r :: r in DropFirst(reports, sender) ==> r in reports
  {
    if reports != [] {
      DropFirstReports(reports[1..], sender, known);
      var rest := DropFirst(reports[1..], sender);
      forall i | 0 <= i < |rest| ensures rest[i].sender != reports[0].sender { assert rest[i] in reports[1..]; }
    }
  }

  lemma {:induction false} DropFirstKeeps(reports: seq<Report>, sender: Id)
    ensures forall r :: r in reports && r.sender != sender ==> r in DropFirst(reports, sender)
  {
    if reports != [] { DropFirstKeeps(reports[1..], sender); }
  }

  /** One report per sender, so withdrawing leaves none of that sender's; the others stay unless they are too old. */
  lemma WithdrawnReports(reports: seq<Report>, sender: Id, now: int, maxtime: int, known: set<Id>)
    requires ReportsFrom(reports, known)
    ensures ReportsFrom(Withdrawn(reports, sender, now, maxtime), known - {sender})
    ensures HasReport(reports, sender) ==>
              forall r :: r in Withdrawn(reports, sender, now, maxtime) <==> r in reports && r.sender != sender && now - r.time <= maxtime
    ensures !HasReport(reports, sender) ==> Withdrawn(reports, sender, now, maxtime) == reports
  {
    if HasReport(reports, sender) {
      DropFirstReports(reports, sender, known);
      DropFirstKeeps(reports, sender);
      RecentMeaning(DropFirst(reports, sender), now, maxtime);
      RecentReports(DropFirst(reports, sender), now, maxtime, known - {sender});
    }
  }

  // ----- removing a node

  /** A node that has forgotten its links with `n`. */
  function Orphan(node: Node, n: Id): Node {
    node.(slaveof := if node.slaveof == Some(n) then None else node.slaveof, slaves := Without(node.slaves, n))
  }

  function Orphans(nodes: Nodes, n: Id): Nodes {
    map x | x in nodes && x != n :: Orphan(nodes[x], n)
  }

  /** The nodes once those in `done` have withdrawn the reports of `n`. */
  function Withdraws(nodes: Nodes, done: set<Id>, n: Id, now: int, maxtime: int): Nodes {
    map x | x in nodes :: if x in done && x != n then nodes[x].(reports := Withdrawn(nodes[x].reports, n, now, maxtime)) else nodes[x]
  }

  /** Nothing in the state refers to `n`. */
  ghost predicate Forgotten(slots: Table, importing: Table, migrating: Table, nodes: Nodes, n: Id) {
    && n !in nodes && Some(n) !in slots && Some(n) !in importing && Some(n) !in migrating
    && Unreferenced(nodes, n)
  }

  lemma WithdrawsKeeps(slots: Table, nodes: Nodes, done: set<Id>, n: Id, now: int, maxtime: int)
    requires Agrees(slots, nodes) && Linked(nodes) && Reported(nodes)
    ensures Agrees(slots, Withdraws(nodes, done, n, now, maxtime)) && Linked(Withdraws(nodes, done, n, now, maxtime))
  {
    hide TestBit, Count, Withdrawn;
    var nodes' := Withdraws(nodes, done, n, now, maxtime);
    forall x | x in nodes' ensures AgreesAt(slots, x, nodes'[x]) { assert AgreesAt(slots, x, nodes[x]); }
    forall x | x in nodes' ensures UpLink(nodes', x) { assert UpLink(nodes, x); }
    forall x | x in nodes' ensures DownLinks(nodes', x) { assert DownLinks(nodes, x); }
  }

  lemma WithdrawsReports(nodes: Nodes, done: set<Id>, n: Id, now: int, maxtime: int, x: Id)
    requires Reported(nodes) && x in nodes
    ensures ReportsFrom(Withdraws(nodes, done, n, now, maxtime)[x].reports, if x in done && x != n then nodes.Keys - {n} else nodes.Keys)
  {
    WithdrawnReports(nodes[x].reports, n, now, maxtime, nodes.Keys);
    hide Withdrawn;
  }

  lemma OrphansLinks(nodes: Nodes, n: Id)
    requires Linked(nodes) && n in nodes
    ensures Linked(Orphans(nodes, n))
    ensures forall x :: x in Orphans(nodes, n) ==> Orphans(nodes, n)[x].slaveof != Some(n) && n !in Orphans(nodes, n)[x].slaves
  {
    var nodes' := Orphans(nodes, n);
    forall x | x in nodes' ensures Distinct(nodes'[x].slaves) && forall y :: y in nodes'[x].slaves <==> y in nodes[x].slaves && y != n {
      assert DownLinks(nodes, x);
      WithoutMeaning(nodes[x].slaves, n);
    }
    hide Without;
    forall x | x in nodes' ensures UpLink(nodes', x) { assert UpLink(nodes, x); }
    forall x | x in nodes' ensures DownLinks(nodes', x) { assert DownLinks(nodes, x); }
  }

  lemma OrphansKeeps(slots: Table, nodes: Nodes, n: Id)
    requires Agrees(slots, nodes) && Some(n) !in slots
    requires forall x :: x in nodes && x != n ==> ReportsFrom(nodes[x].reports, nodes.Keys - {n})
    ensures Agrees(slots, Orphans(nodes, n)) && Reported(Orphans(nodes, n))
  {
    hide TestBit, Count, Without, ReportsFrom;
    var nodes' := Orphans(nodes, n);
    assert nodes'.Keys == nodes.Keys - {n};
    forall x | x in nodes' ensures AgreesAt(slots, x, nodes'[x]) { assert AgreesAt(slots, x, nodes[x]); }
    forall j | 0 <= j < Slots && slots[j].Some? ensures slots[j].value in nodes' { assert slots[j] in slots; }
  }

  /** The slaves that the node lists are those that name it, and only its master lists it. */
  lemma OrphanCases(nodes: Nodes, n: Id, x: Id)
    requires Linked(nodes) && n in nodes && x in nodes
    ensures x in nodes[n].slaves <==> nodes[x].slaveof == Some(n)
    ensures n in nodes[x].slaves <==> nodes[n].slaveof == Some(x)
    ensures nodes[n].slaveof != Some(x) ==> Without(nodes[x].slaves, n) == nodes[x].slaves
  {
    assert UpLink(nodes, n) && UpLink(nodes, x) && DownLinks(nodes, n) && DownLinks(nodes, x);
    if n !in nodes[x].slaves { WithoutAbsent(nodes[x].slaves, n); }
  }

  lemma WithdrawsOne(nodes: Nodes, done: set<Id>, n: Id, now: int, maxtime: int, x: Id)
    requires x in nodes && x !in done
    ensures Withdraws(nodes, done + {x}, n, now, maxtime) ==
            if x == n then Withdraws(nodes, done, n, now, maxtime)
            else Withdraws(nodes, done, n, now, maxtime)[x := nodes[x].(reports := Withdrawn(nodes[x].reports, n, now, maxtime))]
    ensures Withdraws(nodes, done, n, now, maxtime)[x] == nodes[x]
  {
    hide Withdrawn;
  }

  /** The nodes once those listed have lost their master. */
  function Bereft(nodes: Nodes, slaves: seq<Id>): Nodes {
    map x | x in nodes :: if x in slaves then nodes[x].(slaveof := None) else nodes[x]
  }

  lemma BereftOne(nodes: Nodes, slaves: seq<Id>, x: Id)
    requires x in nodes
    ensures Bereft(nodes, slaves + [x]) == Bereft(nodes, slaves)[x := Bereft(nodes, slaves)[x].(slaveof := None)]
  {}

  lemma SlaveKnown(nodes: Nodes, n: Id, x: Id)
    requires Linked(nodes) && n in nodes && x in nodes[n].slaves
    ensures x in nodes
  {
    assert DownLinks(nodes, n);
  }

  /** The node table as clusterDelNode's last step leaves it. */
  function Cut(nodes: Nodes, n: Id): Nodes
    requires n in nodes && UpLinkKnown(nodes, n)
  {
    if nodes[n].slave && nodes[n].slaveof.Some? then Removed(nodes, nodes[n].slaveof.value, n) - {n} else nodes - {n}
  }

  lemma CutAt(nodes: Nodes, n: Id, x: Id)
    requires n in nodes && UpLinkKnown(nodes, n) && x in nodes && x != n
    requires nodes[n].slaveof.Some? ==> nodes[n].slave
    ensures x in Cut(nodes, n)
    ensures Cut(nodes, n)[x] == if nodes[n].slaveof == Some(x) then nodes[x].(slaves := Without(nodes[x].slaves, n)) else nodes[x]
  {
    hide Without;
  }

  lemma OrphansSteps(nodes: Nodes, n: Id)
    requires Linked(nodes) && n in nodes
    ensures UpLinkKnown(Bereft(nodes, nodes[n].slaves), n)
    ensures Cut(Bereft(nodes, nodes[n].slaves), n) == Orphans(nodes, n)
  {
    assert UpLink(nodes, n);
    var m := Bereft(nodes, nodes[n].slaves);
    assert Cut(m, n).Keys == Orphans(nodes, n).Keys by { hide Without; }
    hide Linked;
    forall x | x in nodes && x != n ensures x in Cut(m, n) && Cut(m, n)[x] == Orphans(nodes, n)[x] {
      OrphanCases(nodes, n, x);
      OrphanCases(nodes, n, n);
      CutAt(m, n, x);
      hide Cut, Without;
    }
    hide Cut, Orphan;
  }

  function Deleted(nodes: Nodes, n: Id, now: int, maxtime: int): Nodes {
    Orphans(Withdraws(nodes, nodes.Keys, n, now, maxtime), n)
  }

  lemma WithdrawnAll(slots: Table, nodes: Nodes, n: Id, now: int, maxtime: int)
    requires n in nodes && Agrees(slots, nodes) && Linked(nodes) && Reported(nodes)
    ensures var m := Withdraws(nodes, nodes.Keys, n, now, maxtime);
            && m.Keys == nodes.Keys && Agrees(slots, m) && Linked(m)
            && forall x :: x in m && x != n ==> ReportsFrom(m[x].reports, m.Keys - {n})
  {
    var m := Withdraws(nodes, nodes.Keys, n, now, maxtime);
    assert m.Keys == nodes.Keys;
    WithdrawsKeeps(slots, nodes, nodes.Keys, n, now, maxtime);
    hide Agrees, Linked, ReportsFrom, Withdraws;
    forall x | x in m && x != n ensures ReportsFrom(m[x].reports, m.Keys - {n}) { WithdrawsReports(nodes, nodes.Keys, n, now, maxtime, x); }
  }

  lemma DelNodeKeeps(slots: Table, nodes: Nodes, n: Id, now: int, maxtime: int)
    requires n in nodes && Some(n) !in slots
    requires Agrees(slots, nodes) && Linked(nodes) && Reported(nodes)
    ensures n in Withdraws(nodes, nodes.Keys, n, now, maxtime) && Linked(Withdraws(nodes, nodes.Keys, n, now, maxtime))
    ensures Deleted(nodes, n, now, maxtime).Keys == nodes.Keys - {n}
    ensures Agrees(slots, Deleted(nodes, n, now, maxtime)) && Linked(Deleted(nodes, n, now, maxtime)) && Reported(Deleted(nodes, n, now, maxtime))
    ensures Unreferenced(Deleted(nodes, n, now, maxtime), n)
  {
    hide Withdraws, Agrees, Linked, ReportsFrom, Reported, Orphan;
    WithdrawnAll(slots, nodes, n, now, maxtime);
    var m := Withdraws(nodes, nodes.Keys, n, now, maxtime);
    OrphansLinks(m, n);
    OrphansKeeps(slots, m, n);
    assert Orphans(m, n).Keys == m.Keys - {n};
    hide Orphans;
    NoReports(Orphans(m, n), n);
  }

  ghost predicate Unreferenced(nodes: Nodes, n: Id) {
    forall x :: x in nodes ==> nodes[x].slaveof != Some(n) && n !in nodes[x].slaves && !HasReport(nodes[x].reports, n)
  }

  lemma NoReports(nodes: Nodes, n: Id)
    requires Reported(nodes) && n !in nodes
    ensures forall x :: x in nodes ==> !HasReport(nodes[x].reports, n)
  {
    forall x | x in nodes ensures !HasReport(nodes[x].reports, n) { assert ReportsFrom(nodes[x].reports, nodes.Keys); }
  }

  /** Clearing the slots of `n` touches only `n`, so it makes no difference to the others. */
  lemma DelNodeSame(slots: Table, slots': Table, nodes: Nodes, nodes': Nodes, n: Id, now: int, maxtime: int)
    requires Agrees(slots, nodes) && Agrees(slots', nodes') && SameButSlots(nodes, nodes') && n in nodes
    requires forall j :: 0 <= j < Slots ==> slots'[j] == if slots[j] == Some(n) then None else slots[j]
    ensures Deleted(nodes, n, now, maxtime) == Deleted(nodes', n, now, maxtime)
  {
    hide TestBit, Count, Withdrawn, Without;
    forall x | x in nodes && x != n ensures nodes[x] == nodes'[x] {
      assert AgreesAt(slots, x, nodes[x]) && AgreesAt(slots', x, nodes'[x]);
      SameBits(nodes[x].bits, nodes'[x].bits);
    }
    hide Agrees, SameButSlots;
  }

  lemma DeletedFlags(nodes: Nodes, n: Id, now: int, maxtime: int)
    ensures SameFlags(nodes, Deleted(nodes, n, now, maxtime), n)
  {
    hide Withdrawn, Without;
  }

  lemma Inhabited(s: set<Id>)
    ensures s == {} || exists x :: x in s
  {
    if forall x :: x !in s { assert s == {}; }
  }

  /** What is left of node x once n is removed: x does not follow n, does not list it and has no report of it. */
  lemma DeletedMeaning(nodes: Nodes, n: Id, now: int, maxtime: int, x: Id)
    requires Linked(nodes) && Reported(nodes) && n in nodes && x in nodes && x != n
    ensures x in Deleted(nodes, n, now, maxtime) && LeftOf(nodes[x], Deleted(nodes, n, now, maxtime)[x], n, now, maxtime)
  {
    hide Withdrawn, Without;
    assert DownLinks(nodes, x) && ReportsFrom(nodes[x].reports, nodes.Keys);
    WithoutMeaning(nodes[x].slaves, n);
    WithdrawnReports(nodes[x].reports, n, now, maxtime, nodes.Keys);
  }

  ghost predicate LeftOf(node: Node, node': Node, n: Id, now: int, maxtime: int) {
    && node' == node.(slaveof := if node.slaveof == Some(n) then None else node.slaveof, slaves := node'.slaves, reports := node'.reports)
    && (forall y :: y in node'.slaves <==> y in node.slaves && y != n)
    && (HasReport(node.reports, n) ==>
          forall r :: r in node'.reports <==> r in node.reports && r.sender != n && now - r.time <= maxtime)
    && (!HasReport(node.reports, n) ==> node'.reports == node.reports)
  }

  lemma DeletedAt(nodes: Nodes, n: Id, now: int, maxtime: int, x: Id)
    requires x in nodes && x != n
    ensures x in Deleted(nodes, n, now, maxtime)
    ensures Deleted(nodes, n, now, maxtime)[x].slaveof == if nodes[x].slaveof == Some(n) then None else nodes[x].slaveof
    ensures Deleted(nodes, n, now, maxtime)[x].master == nodes[x].master
  {
    hide Withdrawn, Without;
  }
}
