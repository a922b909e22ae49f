/**
 Deferred reclamation of registered resources. Requests hold a reference to the resource node that
 was current when they first looked a resource up; a resource taken out of the table is queued on
 the current node and put when that node and all older ones have lost their references.

 Nodes are numbered in the order of their allocation, requests and resources by any number. Each
 section under a lock is one step; steps of different tasks interleave in any order.
 */
module RsrcNodes {
  import opened Basics

  type Node = int
  type Rsrc = int

  const Batch: int := 100

  /** A request that holds a reference: to which node, and the resources it looked up and still uses. */
  datatype Request = Request(node: Node, uses: set<Rsrc>)

  datatype Ctx = Ctx(
    next: Node,
    cur: Option<Node>,
    backup: Option<Node>,
    cached: int,
    refs: map<Node, int>,
    refList: seq<Node>,
    done: set<Node>,
    putList: seq<Node>,
    armed: bool,           // the work item is scheduled
    work: seq<Node>,
    queued: map<Node, seq<Rsrc>>,
    table: set<Rsrc>,
    freed: seq<Rsrc>,
    reqs: map<int, Request>)

  datatype Step =
    | SetNode(q: int, locked: bool)
    | LookUp(q: int, r: Rsrc)
    | PutRequest(q: int, locked: bool)
    | Install(r: Rsrc)
    | Remove(r: Rsrc)
    | SwitchStart(ok: bool)
    | Switch(kill: bool)
    | RefZero(n: Node)
    | TakeWork
    | WorkOnce

  /** A resource that was never registered. */
  ghost predicate Unused(c: Ctx, r: Rsrc) {
    r !in c.table && r !in c.freed && forall n :: n in c.queued ==> r !in c.queued[n]
  }

  ghost predicate Enabled(c: Ctx, s: Step) {
    match s
    case SetNode(q, _) => c.cur.Some? && c.cur.value in c.refs && q !in c.reqs
    case LookUp(q, r) => q in c.reqs && r in c.table
    case PutRequest(q, _) => q in c.reqs && c.reqs[q].node in c.refs
    case Install(r) => Unused(c, r)
    case Remove(r) => r in c.table && c.cur.Some? && c.cur.value in c.queued
    case SwitchStart(_) => true
    case Switch(kill) => c.backup.Some? && (c.cur.Some? ==> c.cur.value in c.refs) && (kill ==> c.cur.Some?)
    case RefZero(n) => n in c.refList && n !in c.done && n in c.refs && c.refs[n] == 0
    case TakeWork => c.armed && c.work == []   // the work item does not run beside itself
    case WorkOnce => c.work != [] && c.work[0] in c.queued
  }

  /** io_req_set_rsrc_node. */
  function DoSetNode(c: Ctx, q: int, locked: bool): Ctx
    requires c.cur.Some? && c.cur.value in c.refs
  {
    var n := c.cur.value;
    var c' := c.(reqs := c.reqs[q := Request(n, {})]);
    if !locked then c'.(refs := c.refs[n := c.refs[n] + 1])
    else if c.cached - 1 < 0 then c'.(cached := c.cached - 1 + Batch, refs := c.refs[n := c.refs[n] + Batch])
    else c'.(cached := c.cached - 1)
  }

  /** io_req_put_rsrc and io_req_put_rsrc_locked. */
  function DoPut(c: Ctx, q: int, locked: bool): Ctx
    requires q in c.reqs && c.reqs[q].node in c.refs
  {
    var n := c.reqs[q].node;
    var c' := c.(reqs := c.reqs - {q});
    if locked && c.cur == Some(n) then c'.(cached := c.cached + 1) else c'.(refs := c.refs[n := c.refs[n] - 1])
  }

  /** io_queue_rsrc_removal onto the current node. */
  function DoRemove(c: Ctx, r: Rsrc): Ctx
    requires c.cur.Some? && c.cur.value in c.queued
  {
    c.(table := c.table - {r}, queued := c.queued[c.cur.value := [r] + c.queued[c.cur.value]])
  }

  function DoStart(c: Ctx, ok: bool): Ctx {
    if c.backup.Some? || !ok then c
    else c.(next := c.next + 1, backup := Some(c.next), refs := c.refs[c.next := 1], queued := c.queued[c.next := []])
  }

  /** io_rsrc_refs_drop. */
  function Dropped(c: Ctx): Ctx
    requires c.cur.Some? ==> c.cur.value in c.refs
  {
    if c.cur.None? then c else c.(refs := c.refs[c.cur.value := c.refs[c.cur.value] - c.cached], cached := 0)
  }

  /** The current node goes to the list and its first reference is killed. */
  function Killed(c: Ctx): Ctx
    requires c.cur.Some? && c.cur.value in c.refs
  {
    var n := c.cur.value;
    c.(refList := c.refList + [n], refs := c.refs[n := c.refs[n] - 1], cur := None)
  }

  function Promoted(c: Ctx): Ctx {
    if c.cur.None? then c.(cur := c.backup, backup := None) else c
  }

  /** io_rsrc_node_switch. */
  function DoSwitch(c: Ctx, kill: bool): Ctx
    requires (c.cur.Some? ==> c.cur.value in c.refs) && (kill ==> c.cur.Some?)
  {
    var d := Dropped(c);
    Promoted(if kill then Killed(d) else d)
  }

  /** How many nodes at the head of the list are done. */
  function DonePrefix(list: seq<Node>, done: set<Node>): (k: nat)
    ensures k <= |list| && (forall i :: 0 <= i < k ==> list[i] in done) && (k < |list| ==> list[k] !in done)
  {
    if list == [] || list[0] !in done then 0 else 1 + DonePrefix(list[1..], done)
  }

  function Reversed(s: seq<Node>): seq<Node> {
    if s == [] then [] else Reversed(s[1..]) + [s[0]]
  }

  /** io_rsrc_node_ref_zero; the first node on an empty list of nodes to be put schedules the worker. */
  function DoRefZero(c: Ctx, n: Node): Ctx {
    var done := c.done + {n};
    var k := DonePrefix(c.refList, done);
    c.(done := done, refList := c.refList[k..], putList := Reversed(c.refList[..k]) + c.putList, armed := c.armed || (k > 0 && c.putList == []))
  }

  /** One node's turn in io_rsrc_put_work. */
  function DoWork(c: Ctx): Ctx
    requires c.work != [] && c.work[0] in c.queued
  {
    var n := c.work[0];
    c.(work := c.work[1..], freed := c.freed + c.queued[n], refs := c.refs - {n}, queued := c.queued - {n})
  }

  ghost function Next(c: Ctx, s: Step): Ctx
    requires Enabled(c, s)
  {
    match s
    case SetNode(q, locked) => DoSetNode(c, q, locked)
    case LookUp(q, r) => c.(reqs := c.reqs[q := c.reqs[q].(uses := c.reqs[q].uses + {r})])
    case PutRequest(q, locked) => DoPut(c, q, locked)
    case Install(r) => c.(table := c.table + {r})
    case Remove(r) => DoRemove(c, r)
    case SwitchStart(ok) => DoStart(c, ok)
    case Switch(kill) => DoSwitch(c, kill)
    case RefZero(n) => DoRefZero(c, n)
    case TakeWork => c.(work := c.putList, putList := [], armed := false)
    case WorkOnce => DoWork(c)
  }

  const Start: Ctx := Ctx(0, None, None, 0, map[], [], {}, [], false, [], map[], {}, [], map[])

  ghost predicate Runs(c: Ctx, steps: seq<Step>, c': Ctx)
    decreases |steps|
  {
    if steps == [] then c == c'
    else Enabled(c, steps[0]) && Runs(Next(c, steps[0]), steps[1..], c')
  }

  // ----- what must hold

  /** How many requests hold a reference to n. */
  ghost function Holders(reqs: map<int, Request>, n: Node): nat {
    |HolderSet(reqs, n)|
  }

  /** No request uses a resource that has been put, nor holds a node that has been freed. */
  ghost predicate Safe(c: Ctx) {
    forall q :: q in c.reqs ==> c.reqs[q].node in c.refs && forall r :: r in c.reqs[q].uses ==> r !in c.freed
  }

  // ----- the invariant

  ghost predicate Increasing(s: seq<Node>) {
    forall i, j :: 0 <= i < j < |s| ==> s[i] < s[j]
  }

  ghost predicate Decreasing(s: seq<Node>) {
    forall i, j :: 0 <= i < j < |s| ==> s[i] > s[j]
  }

  ghost predicate Below(s: seq<Node>, n: Node) {
    forall m :: m in s ==> m < n
  }

  ghost predicate AllBelow(s: seq<Node>, t: seq<Node>) {
    forall n :: n in t ==> Below(s, n)
  }

  function Last(c: Ctx): seq<Node> {
    (if c.cur.Some? then [c.cur.value] else []) + (if c.backup.Some? then [c.backup.value] else [])
  }

  /** From oldest to newest: nodes being put, to be put, listed, the current one, the backup. */
  ghost predicate Ordered(c: Ctx) {
    && Decreasing(c.work) && Decreasing(c.putList) && Increasing(c.refList) && Increasing(Last(c))
    && AllBelow(c.work, c.putList) && AllBelow(c.work, c.refList) && AllBelow(c.putList, c.refList)
    && AllBelow(c.work, Last(c)) && AllBelow(c.putList, Last(c)) && AllBelow(c.refList, Last(c))
    && Below(c.work, c.next) && Below(c.putList, c.next) && Below(c.refList, c.next) && Below(Last(c), c.next)
  }

  /** Nodes that may still have references. */
  predicate Pending(c: Ctx, n: Node) {
    n in c.refList || c.cur == Some(n) || c.backup == Some(n)
  }

  ghost predicate Domain(c: Ctx) {
    && c.queued.Keys == c.refs.Keys
    && (forall n :: n in c.refs <==> Pending(c, n) || n in c.putList || n in c.work)
    && (forall n :: n in c.done ==> n in c.refList || (n < c.next && !Pending(c, n)))
  }

  /** Every node's references are accounted for. */
  ghost predicate Counted(c: Ctx) {
    && c.cached >= 0 && (c.cur.None? ==> c.cached == 0 && c.refList == [])
    && (c.cur.Some? ==> c.cur.value in c.refs && c.refs[c.cur.value] == 1 + c.cached + Holders(c.reqs, c.cur.value))
    && (c.backup.Some? ==> c.backup.value in c.refs && c.refs[c.backup.value] == 1 && c.backup.value in c.queued && c.queued[c.backup.value] == [])
    && (forall n :: n in c.refList ==> n in c.refs && c.refs[n] == Holders(c.reqs, n) && (n in c.done ==> c.refs[n] == 0))
  }

  /** Requests hold listed nodes or the current one. What they use is in the table, or queued on a node no older than theirs. */
  ghost predicate Held(c: Ctx) {
    forall q :: q in c.reqs ==>
      && (c.reqs[q].node in c.refList || c.cur == Some(c.reqs[q].node))
      && forall r :: r in c.reqs[q].uses ==> r in c.table || QueuedFrom(c, c.reqs[q].node, r)
  }

  ghost predicate QueuedFrom(c: Ctx, m: Node, r: Rsrc) {
    exists n :: n in c.queued && m <= n && r in c.queued[n]
  }

  /** Each resource is in one place: the table, one place of one queue, or put, once. */
  ghost predicate Placed(c: Ctx) {
    && Distinct(c.freed)
    && (forall r :: r in c.freed ==> r !in c.table)
    && (forall n :: n in c.queued ==> Distinct(c.queued[n]))
    && (forall n, r :: n in c.queued && r in c.queued[n] ==> r !in c.table && r !in c.freed)
    && (forall n, m, r :: n in c.queued && m in c.queued && r in c.queued[n] && r in c.queued[m] ==> n == m)
  }

  ghost predicate Inv(c: Ctx) {
    Ordered(c) && Domain(c) && Counted(c) && Held(c) && Placed(c)
  }

  // ----- counting holders

  ghost function HolderSet(reqs: map<int, Request>, n: Node): set<int> {
    set q | q in reqs && reqs[q].node == n
  }

  lemma HoldersAdd(reqs: map<int, Request>, q: int, req: Request, n: Node)
    requires q !in reqs
    ensures Holders(reqs[q := req], n) == Holders(reqs, n) + if req.node == n then 1 else 0
  {
    assert HolderSet(reqs[q := req], n) == HolderSet(reqs, n) + if req.node == n then {q} else {};
  }

  lemma HoldersRemove(reqs: map<int, Request>, q: int, n: Node)
    requires q in reqs
    ensures Holders(reqs - {q}, n) == Holders(reqs, n) - if reqs[q].node == n then 1 else 0
  {
    assert HolderSet(reqs - {q}, n) == HolderSet(reqs, n) - if reqs[q].node == n then {q} else {};
  }

  lemma HoldersSame(reqs: map<int, Request>, q: int, uses: set<Rsrc>, n: Node)
    requires q in reqs
    ensures Holders(reqs[q := reqs[q].(uses := uses)], n) == Holders(reqs, n)
  {
    assert HolderSet(reqs[q := reqs[q].(uses := uses)], n) == HolderSet(reqs, n);
  }

  lemma HoldersZero(reqs: map<int, Request>, n: Node)
    ensures Holders(reqs, n) == 0 <==> forall q :: q in reqs ==> reqs[q].node != n
  {
    if Holders(reqs, n) == 0 {
      forall q | q in reqs ensures reqs[q].node != n { assert q !in HolderSet(reqs, n); }
    }
    if forall q :: q in reqs ==> reqs[q].node != n { assert HolderSet(reqs, n) == {}; }
  }

  // ----- steps that touch requests

  lemma SetNodeInv(c: Ctx, q: int, locked: bool)
    requires Inv(c) && Enabled(c, SetNode(q, locked))
    ensures Inv(DoSetNode(c, q, locked))
  {
    hide Holders, Ordered, Domain, Placed, Held, Counted;
    var c' := DoSetNode(c, q, locked);
    SameNodes(c, c');
    PlacedSame(c, c');
    SetNodeCounted(c, q, locked);
    SetNodeHeld(c, c', q);
  }

  lemma SameNodes(c: Ctx, c': Ctx)
    requires Ordered(c) && Domain(c) && c'.refs.Keys == c.refs.Keys && c'.queued == c.queued && c'.next == c.next && c'.cur == c.cur && c'.backup == c.backup
    requires c'.refList == c.refList && c'.putList == c.putList && c'.work == c.work && c'.done == c.done
    ensures Ordered(c') && Domain(c')
  {
    assert Last(c') == Last(c);
    assert Ordered(c') by { hide Domain; }
    hide Ordered;
  }

  lemma SetNodeCounted(c: Ctx, q: int, locked: bool)
    requires Ordered(c) && Counted(c) && Enabled(c, SetNode(q, locked))
    ensures Counted(DoSetNode(c, q, locked))
  {
    hide Ordered, Holders;
    var c' := DoSetNode(c, q, locked);
    forall n ensures Holders(c'.reqs, n) == Holders(c.reqs, n) + if n == c.cur.value then 1 else 0 { HoldersAdd(c.reqs, q, c'.reqs[q], n); }
    CurNotListed(c);
  }

  lemma SetNodeHeld(c: Ctx, c': Ctx, q: int)
    requires Held(c) && q !in c.reqs && c.cur.Some? && c'.reqs == c.reqs[q := Request(c.cur.value, {})]
    requires c'.queued == c.queued && c'.cur == c.cur && c'.refList == c.refList && c'.table == c.table
    ensures Held(c')
  {
    QueuesSame(c, c');
    hide QueuedFrom;
  }

  lemma CurNotListed(c: Ctx)
    requires Ordered(c)
    ensures c.cur.Some? ==> c.cur.value !in c.refList && Some(c.cur.value) != c.backup && c.cur.value !in c.putList && c.cur.value !in c.work
    ensures c.backup.Some? ==> c.backup.value !in c.refList && c.backup.value !in c.putList && c.backup.value !in c.work
  {
    if c.cur.Some? { assert Last(c)[0] == c.cur.value && c.cur.value in Last(c); }
    if c.backup.Some? { assert Last(c)[|Last(c)| - 1] == c.backup.value && c.backup.value in Last(c); }
  }

  lemma QueuesSame(c: Ctx, c': Ctx)
    requires c'.queued == c.queued
    ensures forall m, r :: QueuedFrom(c, m, r) <==> QueuedFrom(c', m, r)
  {}

  lemma LookUpInv(c: Ctx, q: int, r: Rsrc)
    requires Inv(c) && Enabled(c, LookUp(q, r))
    ensures Inv(Next(c, LookUp(q, r)))
  {
    var c' := Next(c, LookUp(q, r));
    hide Holders;
    assert Ordered(c') && Domain(c') && Placed(c') by { hide Counted, Held; }
    assert Counted(c') by {
      hide Ordered, Placed, Held;
      forall n ensures Holders(c'.reqs, n) == Holders(c.reqs, n) { HoldersSame(c.reqs, q, c.reqs[q].uses + {r}, n); }
    }
    assert Held(c') by {
      hide Ordered, Placed, Counted, Domain;
      QueuesSame(c, c');
      hide QueuedFrom;
    }
  }

  lemma PutInv(c: Ctx, q: int, locked: bool)
    requires Inv(c) && Enabled(c, PutRequest(q, locked))
    ensures Inv(DoPut(c, q, locked))
  {
    var c' := DoPut(c, q, locked);
    hide Holders;
    assert c'.refs.Keys == c.refs.Keys;
    assert Ordered(c') && Domain(c') && Placed(c') by { hide Counted, Held; }
    assert Counted(c') by {
      hide Placed;
      var m := c.reqs[q].node;
      assert c.cur == Some(m) || m in c.refList;
      hide Held;
      forall n ensures Holders(c'.reqs, n) == Holders(c.reqs, n) - if n == m then 1 else 0 { HoldersRemove(c.reqs, q, n); }
      HoldersZero(c.reqs, m);
      CurNotListed(c);
      hide Ordered;
    }
    assert Held(c') by {
      hide Ordered, Placed, Counted, Domain;
      QueuesSame(c, c');
      hide QueuedFrom;
    }
  }

  // ----- steps that touch resources

  lemma InstallInv(c: Ctx, r: Rsrc)
    requires Inv(c) && Enabled(c, Install(r))
    ensures Inv(Next(c, Install(r)))
  {
    var c' := Next(c, Install(r));
    hide Holders;
    assert Ordered(c') && Domain(c') by { hide Placed, Held, Counted; }
    assert Counted(c') by { hide Placed, Held, Ordered, Domain; }
    assert Placed(c') by { hide Ordered, Domain, Counted, Held; }
    assert Held(c') by {
      hide Ordered, Placed, Counted, Domain;
      QueuesSame(c, c');
      hide QueuedFrom;
    }
  }

  lemma RemoveInv(c: Ctx, r: Rsrc)
    requires Inv(c) && Enabled(c, Remove(r))
    ensures Inv(DoRemove(c, r))
  {
    var c' := DoRemove(c, r);
    var n := c.cur.value;
    hide Holders;
    assert c'.queued.Keys == c.queued.Keys;
    assert Ordered(c') && Domain(c') by { hide Placed, Held, Counted; }
    assert Counted(c') by { hide Placed, Held, Domain; CurNotListed(c); }
    assert Placed(c') by { hide Ordered, Domain, Counted, Held; }
    assert Held(c') by {
      hide Placed, Counted, Domain;
      forall x, m | QueuedFrom(c, m, x) ensures QueuedFrom(c', m, x) {
        var k :| k in c.queued && m <= k && x in c.queued[k];
        assert k in c'.queued && x in c'.queued[k];
      }
      forall m | m <= n ensures QueuedFrom(c', m, r) { assert r in c'.queued[n]; }
      hide QueuedFrom;
      forall q | q in c.reqs ensures c.reqs[q].node <= n { NodeAtMostCur(c, q); }
      hide Ordered;
    }
  }

  lemma NodeAtMostCur(c: Ctx, q: int)
    requires Ordered(c) && Held(c) && q in c.reqs && c.cur.Some?
    ensures c.reqs[q].node <= c.cur.value
  {
    assert Last(c)[0] == c.cur.value && c.cur.value in Last(c);
    assert Below(c.refList, c.cur.value);
  }

  // ----- the order of nodes

  lemma AllBelowConcat(s: seq<Node>, t: seq<Node>, u: seq<Node>)
    ensures AllBelow(s, t + u) <==> AllBelow(s, t) && AllBelow(s, u)
  {
    hide Below;
    forall n | n in t ensures n in t + u {}
    forall n | n in u ensures n in t + u {}
  }

  lemma ConcatAllBelow(s: seq<Node>, t: seq<Node>, u: seq<Node>)
    ensures AllBelow(s + t, u) <==> AllBelow(s, u) && AllBelow(t, u)
  {
    forall n ensures Below(s + t, n) <==> Below(s, n) && Below(t, n) { BelowConcat(s, t, n); }
    hide Below;
  }

  lemma BelowConcat(s: seq<Node>, t: seq<Node>, n: Node)
    ensures Below(s + t, n) <==> Below(s, n) && Below(t, n)
  {
    forall m | m in s ensures m in s + t {}
    forall m | m in t ensures m in s + t {}
  }

  lemma BelowOne(s: seq<Node>, n: Node)
    ensures AllBelow(s, [n]) <==> Below(s, n)
  {
    assert n in [n];
  }

  lemma BelowNext(s: seq<Node>, n: Node)
    requires Below(s, n)
    ensures Below(s, n + 1)
  {}

  lemma IncreasingSnoc(s: seq<Node>, n: Node)
    requires Increasing(s) && Below(s, n)
    ensures Increasing(s + [n])
  {
    forall i | 0 <= i < |s| ensures s[i] < n { assert s[i] in s; }
  }

  lemma IncreasingSplit(s: seq<Node>, t: seq<Node>)
    requires Increasing(s + t)
    ensures Increasing(s) && Increasing(t) && AllBelow(s, t)
  {
    var u := s + t;
    assert forall i :: 0 <= i < |s| ==> s[i] == u[i];
    assert forall i :: 0 <= i < |t| ==> t[i] == u[|s| + i];
  }

  lemma SameMembers(s: seq<Node>, t: seq<Node>)
    requires forall n :: n in s <==> n in t
    ensures forall u :: AllBelow(s, u) <==> AllBelow(t, u)
    ensures forall u :: AllBelow(u, s) <==> AllBelow(u, t)
    ensures forall n :: Below(s, n) <==> Below(t, n)
  {}

  // ----- steps that touch nodes

  lemma SwitchStartInv(c: Ctx, ok: bool)
    requires Inv(c)
    ensures Inv(DoStart(c, ok))
  {
    if c.backup.None? && ok {
      var c' := DoStart(c, ok);
      hide Holders;
      StartOrdered(c, c');
      FreshNode(c);
      hide Ordered;
      assert Domain(c') by { hide Counted, Held, Placed; }
      assert Counted(c') by { hide Domain, Held, Placed; }
      assert Placed(c') by { hide Domain, Held, Counted; }
      assert Held(c') by {
        hide Domain, Counted, Placed;
        forall x, m | QueuedFrom(c, m, x) ensures QueuedFrom(c', m, x) {
          var k :| k in c.queued && m <= k && x in c.queued[k];
          assert k in c'.queued && x in c'.queued[k];
        }
        hide QueuedFrom;
      }
    }
  }

  lemma StartOrdered(c: Ctx, c': Ctx)
    requires Ordered(c) && c.backup.None?
    requires c'.next == c.next + 1 && c'.backup == Some(c.next) && c'.cur == c.cur
    requires c'.refList == c.refList && c'.putList == c.putList && c'.work == c.work
    ensures Ordered(c')
  {
    var x := c.next;
    assert Last(c') == Last(c) + [x];
    hide Below, AllBelow, Increasing, Decreasing, Last;
    IncreasingSnoc(Last(c), x);
    AllBelowConcat(c.work, Last(c), [x]);
    AllBelowConcat(c.putList, Last(c), [x]);
    AllBelowConcat(c.refList, Last(c), [x]);
    BelowOne(c.work, x);
    BelowOne(c.putList, x);
    BelowOne(c.refList, x);
    BelowNext(c.work, x);
    BelowNext(c.putList, x);
    BelowNext(c.refList, x);
    BelowNext(Last(c), x);
    BelowConcat(Last(c), [x], x + 1);
    assert Below([x], x + 1) by { OneBelow(x); }
  }

  lemma OneBelow(x: Node)
    ensures Below([x], x + 1)
  {}

  lemma FreshNode(c: Ctx)
    requires Ordered(c) && Domain(c)
    ensures c.next !in c.refs && c.next !in c.queued && c.next !in c.refList && c.cur != Some(c.next)
  {
    if c.cur.Some? { assert Last(c)[0] == c.cur.value && c.cur.value in Last(c); }
    if c.backup.Some? { assert Last(c)[|Last(c)| - 1] == c.backup.value && c.backup.value in Last(c); }
  }

  /** Switching without a kill only gives the cached references back, or makes the first node current. */
  lemma KeepInv(c: Ctx)
    requires Inv(c) && Enabled(c, Switch(false))
    ensures Inv(DoSwitch(c, false))
  {
    var c' := DoSwitch(c, false);
    hide Holders;
    assert c'.refs.Keys == c.refs.Keys;
    assert Last(c') == Last(c);
    CurNotListed(c);
    assert Ordered(c') && Placed(c') by { hide Domain, Counted, Held; }
    assert Domain(c') by { hide Ordered, Counted, Held, Placed; }
    assert Counted(c') by {
      if c.cur.None? {
        HoldersZero(c.reqs, c.backup.value);
      }
      hide Ordered, Domain, Held, Placed;
    }
    assert Held(c') by {
      QueuesSame(c, c');
      hide Ordered, Domain, Counted, Placed, QueuedFrom;
    }
  }

  /** The state after a kill, written out. */
  lemma KillShape(c: Ctx)
    requires Inv(c) && Enabled(c, Switch(true))
    ensures var c' := DoSwitch(c, true);
            && c'.refList == c.refList + [c.cur.value] && c'.cur == c.backup && c'.backup == None && c'.cached == 0
            && c'.refs == c.refs[c.cur.value := c.refs[c.cur.value] - c.cached - 1]
            && c'.next == c.next && c'.done == c.done && c'.putList == c.putList && c'.work == c.work
            && c'.queued == c.queued && c'.table == c.table && c'.freed == c.freed && c'.reqs == c.reqs
  {
    hide Inv;
  }

  lemma KillInv(c: Ctx)
    requires Inv(c) && Enabled(c, Switch(true))
    ensures Inv(DoSwitch(c, true))
  {
    var c' := DoSwitch(c, true);
    KillShape(c);
    hide DoSwitch, Holders;
    assert c'.refs.Keys == c.refs.Keys;
    CurNotListed(c);
    assert Ordered(c') by { KillOrdered(c, c'); }
    assert Placed(c') by { hide Ordered, Domain, Counted, Held; }
    assert Domain(c') by { hide Ordered, Counted, Held, Placed; }
    assert Counted(c') by {
      HoldersZero(c.reqs, c.backup.value);
      hide Ordered, Placed;
    }
    assert Held(c') by {
      QueuesSame(c, c');
      hide Ordered, Domain, Counted, Placed, QueuedFrom;
    }
  }

  lemma KillOrdered(c: Ctx, c': Ctx)
    requires Ordered(c) && c.cur.Some? && c.backup.Some?
    requires c'.refList == c.refList + [c.cur.value] && c'.cur == c.backup && c'.backup == None
    requires c'.next == c.next && c'.putList == c.putList && c'.work == c.work
    ensures Ordered(c')
  {
    var x, y := c.cur.value, c.backup.value;
    assert Last(c) == [x] + [y] && Last(c') == [y];
    hide Below, AllBelow, Increasing, Decreasing, Last;
    IncreasingSplit([x], [y]);
    AllBelowConcat(c.work, [x], [y]);
    AllBelowConcat(c.putList, [x], [y]);
    AllBelowConcat(c.refList, [x], [y]);
    AllBelowConcat(c.work, c.refList, [x]);
    AllBelowConcat(c.putList, c.refList, [x]);
    ConcatAllBelow(c.refList, [x], [y]);
    BelowOne(c.refList, x);
    IncreasingSnoc(c.refList, x);
    BelowConcat([x], [y], c.next);
    BelowConcat(c.refList, [x], c.next);
  }

  lemma {:induction false} ReversedMembers(s: seq<Node>)
    ensures |Reversed(s)| == |s| && forall n :: n in Reversed(s) <==> n in s
  {
    if s != [] { ReversedMembers(s[1..]); }
  }

  lemma {:induction false} ReversedDecreasing(s: seq<Node>)
    requires Increasing(s)
    ensures Decreasing(Reversed(s))
  {
    if s != [] {
      ReversedDecreasing(s[1..]);
      ReversedMembers(s[1..]);
      var r := Reversed(s[1..]);
      forall i | 0 <= i < |r| ensures r[i] > s[0] {
        assert r[i] in r;
        var j :| 0 <= j < |s[1..]| && s[1..][j] == r[i];
        assert s[j + 1] == r[i];
      }
    }
  }

  lemma DecreasingConcat(a: seq<Node>, b: seq<Node>)
    requires Decreasing(a) && Decreasing(b) && AllBelow(b, a)
    ensures Decreasing(a + b)
  {
    forall i, j | 0 <= i < |a| && 0 <= j < |b| ensures a[i] > b[j] { assert a[i] in a && b[j] in b; }
  }

  lemma RefZeroOrdered(c: Ctx, c': Ctx, k: nat)
    requires Ordered(c) && k <= |c.refList|
    requires c'.refList == c.refList[k..] && c'.putList == Reversed(c.refList[..k]) + c.putList
    requires c'.work == c.work && c'.next == c.next && c'.cur == c.cur && c'.backup == c.backup
    ensures Ordered(c')
  {
    var front, back := c.refList[..k], c.refList[k..];
    var more := Reversed(front);
    assert c.refList == front + back && Last(c') == Last(c);
    hide Below, AllBelow, Increasing, Decreasing, Last, Reversed;
    IncreasingSplit(front, back);
    ReversedMembers(front);
    ReversedDecreasing(front);
    SameMembers(more, front);
    AllBelowConcat(c.work, front, back);
    AllBelowConcat(c.putList, front, back);
    DecreasingConcat(more, c.putList);
    AllBelowConcat(c.work, more, c.putList);
    ConcatAllBelow(more, c.putList, back);
    ConcatAllBelow(front, back, Last(c));
    ConcatAllBelow(more, c.putList, Last(c));
    BelowConcat(front, back, c.next);
    BelowConcat(more, c.putList, c.next);
  }

  lemma RefZeroInv(c: Ctx, n: Node)
    requires Inv(c) && Enabled(c, RefZero(n))
    ensures Inv(DoRefZero(c, n))
  {
    hide Ordered, Domain, Counted, Held, Placed, Reversed;
    var c' := DoRefZero(c, n);
    var k := DonePrefix(c.refList, c'.done);
    var front, back := c.refList[..k], c.refList[k..];
    assert c.refList == front + back;
    RefZeroOrdered(c, c', k);
    ReversedMembers(front);
    RefZeroDomain(c, c', n, front, back);
    RefZeroCounted(c, c', n, front, back);
    RefZeroHeld(c, c', n, front, back);
    PlacedSame(c, c');
  }

  lemma PlacedSame(c: Ctx, c': Ctx)
    requires Placed(c) && c'.freed == c.freed && c'.table == c.table && c'.queued == c.queued
    ensures Placed(c')
  {}

  lemma RefZeroCounted(c: Ctx, c': Ctx, n: Node, front: seq<Node>, back: seq<Node>)
    requires Counted(c) && Enabled(c, RefZero(n)) && c.refList == front + back
    requires c' == c.(refList := back, done := c.done + {n}, putList := c'.putList, armed := c'.armed)
    ensures Counted(c')
  {
    hide Holders;
    assert forall m :: m in back ==> m in c.refList;
  }

  /** A node leaves the list only when no request holds it. */
  lemma RefZeroHeld(c: Ctx, c': Ctx, n: Node, front: seq<Node>, back: seq<Node>)
    requires Counted(c) && Held(c) && Enabled(c, RefZero(n)) && c.refList == front + back
    requires forall i :: 0 <= i < |front| ==> front[i] in c.done + {n}
    requires c' == c.(refList := back, done := c.done + {n}, putList := c'.putList, armed := c'.armed)
    ensures Held(c')
  {
    forall q | q in c.reqs ensures c.reqs[q].node in c.refList ==> c.reqs[q].node in back { DoneHasNoHolder(c, n, q); }
    QueuesSame(c, c');
    hide Counted, QueuedFrom;
  }

  lemma RefZeroDomain(c: Ctx, c': Ctx, n: Node, front: seq<Node>, back: seq<Node>)
    requires Ordered(c) && Domain(c) && c.refList == front + back && n in c.refList
    requires c'.refList == back && c'.work == c.work && c'.next == c.next && c'.cur == c.cur && c'.backup == c.backup
    requires c'.queued == c.queued && c'.refs == c.refs && c'.done == c.done + {n}
    requires forall m :: m in c'.putList <==> m in front || m in c.putList
    ensures Domain(c')
  {
    IncreasingSplit(front, back);
    CurNotListed(c);
    assert forall m :: m in c.refList <==> m in front || m in back;
    assert forall m :: m in c.refList ==> m < c.next;
    forall m | m in front ensures m !in back {}
    hide Ordered;
  }

  lemma DoneHasNoHolder(c: Ctx, n: Node, q: int)
    requires Counted(c) && Enabled(c, RefZero(n)) && q in c.reqs
    ensures c.reqs[q].node in c.refList ==> c.reqs[q].node !in c.done && c.reqs[q].node != n
  {
    HoldersZero(c.reqs, c.reqs[q].node);
  }

  lemma TakeWorkInv(c: Ctx)
    requires Inv(c) && Enabled(c, TakeWork)
    ensures Inv(Next(c, TakeWork))
  {
    var c' := Next(c, TakeWork);
    hide Holders;
    assert Last(c') == Last(c);
    assert Ordered(c') && Placed(c') by { hide Domain, Counted, Held; }
    assert Domain(c') by { hide Ordered, Counted, Held, Placed; }
    assert Counted(c') by { hide Ordered, Domain, Held, Placed; }
    assert Held(c') by {
      QueuesSame(c, c');
      hide Ordered, Domain, Counted, Placed, QueuedFrom;
    }
  }

  lemma WorkInv(c: Ctx)
    requires Inv(c) && Enabled(c, WorkOnce)
    ensures Inv(DoWork(c))
  {
    hide Ordered, Domain, Counted, Held, Placed;
    var c' := DoWork(c);
    WorkOldest(c);
    WorkOrdered(c, c');
    WorkDomain(c, c');
    WorkHeld(c, c');
    WorkPlaced(c, c');
  }

  lemma WorkOrdered(c: Ctx, c': Ctx)
    requires Ordered(c) && c.work != []
    requires c'.next == c.next && c'.cur == c.cur && c'.backup == c.backup
    requires c'.refList == c.refList && c'.putList == c.putList && c'.work == c.work[1..]
    ensures Ordered(c')
  {
    var n, rest := c.work[0], c.work[1..];
    assert Last(c') == Last(c) && Decreasing(rest);
    assert c.work == [n] + rest;
    hide Below, AllBelow, Increasing, Decreasing, Last;
    ConcatAllBelow([n], rest, c.putList);
    ConcatAllBelow([n], rest, c.refList);
    ConcatAllBelow([n], rest, Last(c));
    BelowConcat([n], rest, c.next);
  }

  lemma WorkDomain(c: Ctx, c': Ctx)
    requires Domain(c) && Counted(c) && c.work != [] && c.work[0] in c.queued && c' == DoWork(c)
    requires c.work[0] !in c.refList && c.work[0] !in c.putList && c.work[0] !in c.work[1..]
    requires c.cur != Some(c.work[0]) && c.backup != Some(c.work[0])
    ensures Domain(c') && Counted(c')
  {
    hide Holders;
    assert c.work == [c.work[0]] + c.work[1..];
  }

  lemma WorkHeld(c: Ctx, c': Ctx)
    requires Held(c) && c.work != [] && c.work[0] in c.queued && c' == DoWork(c)
    requires forall q :: q in c.reqs ==> c.reqs[q].node > c.work[0]
    ensures Held(c')
  {
    forall x, m | QueuedFrom(c, m, x) && m > c.work[0] ensures QueuedFrom(c', m, x) {
      var k :| k in c.queued && m <= k && x in c.queued[k];
      assert k in c'.queued && x in c'.queued[k];
    }
    hide QueuedFrom;
  }

  lemma WorkPlaced(c: Ctx, c': Ctx)
    requires Placed(c) && c.work != [] && c.work[0] in c.queued && c' == DoWork(c)
    ensures Placed(c')
  {
    DistinctConcat(c.freed, c.queued[c.work[0]]);
  }

  /** The node at work is older than every node that a request holds. */
  lemma WorkOldest(c: Ctx)
    requires Ordered(c) && Held(c) && c.work != []
    ensures forall q :: q in c.reqs ==> c.reqs[q].node > c.work[0]
    ensures c.work[0] !in c.refList && c.work[0] !in c.putList && c.work[0] !in c.work[1..]
    ensures c.cur != Some(c.work[0]) && c.backup != Some(c.work[0])
  {
    assert c.work[0] in c.work;
    if c.cur.Some? { assert Last(c)[0] == c.cur.value && c.cur.value in Last(c); }
    if c.backup.Some? { assert Last(c)[|Last(c)| - 1] == c.backup.value && c.backup.value in Last(c); }
  }

  // ----- over whole runs

  lemma StepInv(c: Ctx, s: Step)
    requires Inv(c) && Enabled(c, s)
    ensures Inv(Next(c, s))
  {
    hide Inv, DoSetNode, DoPut, DoRemove, DoStart, DoSwitch, DoRefZero, DoWork;
    match s
    case SetNode(q, locked) => SetNodeInv(c, q, locked);
    case LookUp(q, r) => LookUpInv(c, q, r);
    case PutRequest(q, locked) => PutInv(c, q, locked);
    case Install(r) => InstallInv(c, r);
    case Remove(r) => RemoveInv(c, r);
    case SwitchStart(ok) => SwitchStartInv(c, ok);
    case Switch(kill) => if kill { KillInv(c); } else { KeepInv(c); }
    case RefZero(n) => RefZeroInv(c, n);
    case TakeWork => TakeWorkInv(c);
    case WorkOnce => WorkInv(c);
  }

  lemma {:induction false} RunInv(c: Ctx, steps: seq<Step>, c': Ctx)
    requires Inv(c) && Runs(c, steps, c')
    ensures Inv(c')
    decreases |steps|
  {
    hide Next, Enabled, Inv;
    if steps != [] {
      StepInv(c, steps[0]);
      RunInv(Next(c, steps[0]), steps[1..], c');
    }
  }

  lemma StartInv()
    ensures Inv(Start)
  {}

  /** A resource still in use, or queued on a node no older than one that is held, has not been put. */
  lemma InvSafe(c: Ctx)
    requires Inv(c)
    ensures Safe(c)
  {
    forall q, r | q in c.reqs && r in c.reqs[q].uses ensures r !in c.freed {
      if r !in c.table { assert QueuedFrom(c, c.reqs[q].node, r); }
    }
  }

  /** Over every interleaving no request uses a resource that was put, and nothing is put twice. */
  lemma ReclamationSafe(steps: seq<Step>, c: Ctx)
    requires Runs(Start, steps, c)
    ensures Safe(c) && Distinct(c.freed)
  {
    StartInv();
    RunInv(Start, steps, c);
    InvSafe(c);
  }

  /** When the resources queued on a node are put, every request that holds a reference holds a newer node's. */
  lemma PutAfterDrop(steps: seq<Step>, c: Ctx, q: int)
    requires Runs(Start, steps, c) && Enabled(c, WorkOnce) && q in c.reqs
    ensures c.reqs[q].node > c.work[0]
  {
    StartInv();
    RunInv(Start, steps, c);
    WorkOldest(c);
  }

  /** References are conserved: one plus the cached ones plus the holders, and for a node no longer current its holders alone. */
  lemma RefsConserved(steps: seq<Step>, c: Ctx, n: Node)
    requires Runs(Start, steps, c) && n in c.refs
    ensures c.cached >= 0
    ensures c.cur == Some(n) ==> c.refs[n] == 1 + c.cached + Holders(c.reqs, n)
    ensures n in c.refList ==> c.refs[n] == Holders(c.reqs, n)
    ensures n in c.putList || n in c.work ==> Holders(c.reqs, n) == 0
  {
    StartInv();
    RunInv(Start, steps, c);
    HoldersZero(c.reqs, n);
    hide Holders;
    if (n in c.putList || n in c.work) {
      forall q | q in c.reqs ensures c.reqs[q].node != n { RetiredNotHeld(c, n, q); }
    }
  }

  lemma RetiredNotHeld(c: Ctx, n: Node, q: int)
    requires Ordered(c) && Held(c) && (n in c.putList || n in c.work) && q in c.reqs
    ensures c.reqs[q].node != n
  {
    CurNotListed(c);
    if c.reqs[q].node in c.refList { assert Below(c.putList, c.reqs[q].node) && Below(c.work, c.reqs[q].node); }
  }

  /** Resources are neither lost nor invented: only Install adds one. */
  lemma ResourcesConserved(c: Ctx, s: Step, r: Rsrc)
    requires Inv(c) && Enabled(c, s)
    ensures !Unused(Next(c, s), r) <==> !Unused(c, r) || s == Install(r)
  {
    hide Ordered, Counted, Held, Placed;
    assert s.SwitchStart? ==> c.next !in c.queued by { FreshNode(c); }
    match s
    case Remove(x) =>
      var n := c.cur.value;
      forall m | m in c.queued && m != n ensures DoRemove(c, x).queued[m] == c.queued[m] {}
      assert DoRemove(c, x).queued[n] == [x] + c.queued[n];
      if r in c.queued[n] { assert r in DoRemove(c, x).queued[n]; }
    case WorkOnce =>
      var n := c.work[0];
      forall m | m in c.queued && m != n ensures m in DoWork(c).queued && DoWork(c).queued[m] == c.queued[m] {}
    case SwitchStart(ok) =>
      forall m | m in c.queued ensures m in DoStart(c, ok).queued && DoStart(c, ok).queued[m] == c.queued[m] {}
    case _ =>
      assert Next(c, s).queued == c.queued;
  }

  // ----- progress

  /** The oldest listed node is not done, and the worker is scheduled while there is something for it. */
  predicate Moving(c: Ctx) {
    (c.refList != [] ==> c.refList[0] !in c.done) && (c.putList != [] ==> c.armed)
  }

  lemma StepMoving(c: Ctx, s: Step)
    requires Inv(c) && Moving(c) && Enabled(c, s)
    ensures Moving(Next(c, s))
  {
    hide Ordered, Counted, Held, Placed;
    match s
    case Switch(kill) => if kill { KillShape(c); hide DoSwitch; }
    case RefZero(n) =>
      var k := DonePrefix(c.refList, c.done + {n});
      ReversedMembers(c.refList[..k]);
    case _ =>
  }

  lemma {:induction false} RunMoving(c: Ctx, steps: seq<Step>, c': Ctx)
    requires Inv(c) && Moving(c) && Runs(c, steps, c')
    ensures Inv(c') && Moving(c')
    decreases |steps|
  {
    hide Next, Enabled, Inv, Moving;
    if steps != [] {
      StepInv(c, steps[0]);
      StepMoving(c, steps[0]);
      RunMoving(Next(c, steps[0]), steps[1..], c');
    }
  }

  /** In every reachable state the oldest listed node is not done: if there is a listed node, there is one that is not done. */
  lemma OldestNotDone(steps: seq<Step>, c: Ctx)
    requires Runs(Start, steps, c)
    ensures c.refList != [] ==> c.refList[0] !in c.done
    ensures c.refList != [] ==> exists n :: n in c.refList && n !in c.done
    ensures c.putList != [] ==> c.armed
  {
    hide Inv, Runs;
    StartInv();
    RunMoving(Start, steps, c);
    if c.refList != [] {
      var n := c.refList[0];
      assert n in c.refList && n !in c.done;
    }
  }

  /** No request holds a reference to a listed node. */
  predicate Released(c: Ctx) {
    forall q :: q in c.reqs ==> c.reqs[q].node !in c.refList
  }

  /** Nodes that wait to be put. */
  predicate Waiting(c: Ctx, n: Node) {
    n in c.refList || n in c.putList || n in c.work
  }

  /** What the callbacks and the worker leave alone; resources that waited still do, or are put. */
  ghost predicate Drained(c: Ctx, c': Ctx) {
    && c'.reqs == c.reqs && c'.table == c.table && c'.cur == c.cur && c'.backup == c.backup
    && (forall r :: r in c.freed ==> r in c'.freed)
    && (forall n :: Waiting(c', n) ==> Waiting(c, n))
    && (forall n, r :: Waiting(c, n) && n in c.queued && r in c.queued[n] ==> r in c'.freed || (Waiting(c', n) && n in c'.queued && r in c'.queued[n]))
  }

  lemma DrainedTrans(a: Ctx, b: Ctx, c: Ctx)
    requires Drained(a, b) && Drained(b, c)
    ensures Drained(a, c)
  {
    hide Waiting;
  }

  /** A step of the callbacks or the worker, while anything is waiting that no request holds. */
  lemma OneDrain(c: Ctx) returns (s: Step)
    requires Inv(c) && Moving(c) && Released(c) && (c.refList != [] || c.putList != [] || c.work != [])
    ensures Enabled(c, s) && Drained(c, Next(c, s)) && Released(Next(c, s))
    ensures var c' := Next(c, s);
            3 * |c'.refList| + 2 * |c'.putList| + |c'.work| < 3 * |c.refList| + 2 * |c.putList| + |c.work|
  {
    if c.work != [] {
      s := WorkOnce;
      WorkDrains(c);
    } else if c.putList != [] {
      s := TakeWork;
    } else {
      s := RefZero(c.refList[0]);
      RefZeroDrains(c, c.refList[0]);
    }
  }

  lemma WorkDrains(c: Ctx)
    requires Inv(c) && c.work != []
    ensures Enabled(c, WorkOnce) && Drained(c, DoWork(c))
  {
    assert c.work[0] in c.work && c.work == [c.work[0]] + c.work[1..];
    hide Ordered, Counted, Held, Placed;
    assert c.work[0] in c.queued;
  }

  lemma RefZeroDrains(c: Ctx, n: Node)
    requires Inv(c) && Moving(c) && Released(c) && c.refList != [] && n == c.refList[0]
    ensures Enabled(c, RefZero(n))
    ensures var c' := DoRefZero(c, n);
            && Drained(c, c') && Released(c') && |c'.refList| < |c.refList| && |c'.refList| + |c'.putList| == |c.refList| + |c.putList| && c'.work == c.work
  {
    HoldersZero(c.reqs, n);
    hide Ordered, Held, Placed, Holders;
    assert n in c.refList;
    var k := DonePrefix(c.refList, c.done + {n});
    ReversedMembers(c.refList[..k]);
    assert c.refList == c.refList[..k] + c.refList[k..];
  }

  /** Whenever no request holds a listed node, the callbacks and the worker empty the list, and then every resource that was queued on a listed node is put. */
  lemma {:induction false} Drains(c: Ctx) returns (steps: seq<Step>, c': Ctx)
    requires Inv(c) && Moving(c) && Released(c)
    ensures Runs(c, steps, c') && Drained(c, c') && c'.refList == [] && c'.putList == [] && c'.work == []
    ensures forall n, r :: Waiting(c, n) && n in c.queued && r in c.queued[n] ==> r in c'.freed
    decreases 3 * |c.refList| + 2 * |c.putList| + |c.work|
  {
    if c.refList == [] && c.putList == [] && c.work == [] {
      steps, c' := [], c;
    } else {
      hide Inv, Moving, Released;
      var s := OneDrain(c);
      StepInv(c, s);
      StepMoving(c, s);
      var rest;
      rest, c' := Drains(Next(c, s));
      steps := [s] + rest;
      assert steps[1..] == rest;
      hide Enabled, Next, Drained;
      DrainedTrans(c, Next(c, s), c');
      AllPut(c, c');
    }
  }

  lemma AllPut(c: Ctx, c': Ctx)
    requires Drained(c, c') && c'.refList == [] && c'.putList == [] && c'.work == []
    ensures forall n, r :: Waiting(c, n) && n in c.queued && r in c.queued[n] ==> r in c'.freed
  {}

  /** So from every reachable state: nothing that was taken out of the table is kept for ever. */
  lemma ReachableDrains(before: seq<Step>, c: Ctx) returns (steps: seq<Step>, c': Ctx)
    requires Runs(Start, before, c) && Released(c)
    ensures Runs(c, steps, c') && c'.refList == [] && c'.putList == [] && c'.work == [] && c'.table == c.table && c'.reqs == c.reqs
    ensures forall n, r :: Waiting(c, n) && n in c.queued && r in c.queued[n] ==> r in c'.freed
  {
    StartInv();
    RunMoving(Start, before, c);
    hide Inv, Moving, Released, Runs;
    steps, c' := Drains(c);
  }
}
