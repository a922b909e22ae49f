/**
 Matching of query trees. A query is a tree of sub-queries; the results of captured sub-queries are
 memoised by query id and node. With ids that tell sub-queries apart, the memo makes no difference.

 The query engine's raw matches, the checks on single captures, the merging of results and the
 ordering test of negations are functions of the environment. Results and nodes are numbered.
 */
module QueryMatch {
  import opened Basics

  type Res = int
  type Node = int

  /** A capture of a raw match: which capture of the query, and the node. */
  datatype Hit = Hit(index: nat, node: Node)

  datatype Raw = Raw(pattern: nat, hits: seq<Hit>)

  datatype Tree = Tree(query: int, patterns: nat, captures: seq<Capture>, negations: seq<Negation>, id: int)

  datatype Capture = Sub(tree: Tree) | Plain

  datatype Negation = Negation(tree: Tree, after: int)

  datatype Env = Env(
    raw: (int, Node) -> seq<Raw>,                  // the raw matches of a query below a node, in order
    base: (int, int, Raw) -> Option<Res>,          // a match by itself, unless one of its captures is refused
    merge: (Res, Res, bool) -> Option<Res>,
    inOrder: (int, int, Res, Res) -> bool)         // a negative match lies between the captures it must lie between

  // ----- parts that need no cache

  function MergeWith(env: Env, r: Res, subs: seq<Res>, ordered: bool): seq<Res> {
    if subs == [] then []
    else
      MergeWith(env, r, subs[..|subs| - 1], ordered) +
      match env.merge(r, subs[|subs| - 1], ordered) { case None => [] case Some(x) => [x] }
  }

  /** merge_query_results: every pair that merges, in order. */
  function Merge(env: Env, results: seq<Res>, subs: seq<Res>, ordered: bool): seq<Res> {
    if results == [] then []
    else Merge(env, results[..|results| - 1], subs, ordered) + MergeWith(env, results[|results| - 1], subs, ordered)
  }

  /** The lists of all patterns merged from left to right. */
  function MergeAll(env: Env, lists: seq<seq<Res>>): seq<Res> {
    if lists == [] then []
    else
      var before := MergeAll(env, lists[..|lists| - 1]);
      if before == [] then (if |lists| == 1 then lists[0] else []) else Merge(env, before, lists[|lists| - 1], true)
  }

  predicate Blocks(env: Env, id: int, after: int, n: Res, result: Res) {
    env.merge(n, result, false).Some? && env.inOrder(id, after, n, result)
  }

  predicate AnyBlocks(env: Env, id: int, after: int, ns: seq<Res>, result: Res) {
    exists i :: 0 <= i < |ns| && Blocks(env, id, after, ns[i], result)
  }

  function NoLists(n: nat): (lists: seq<seq<Res>>)
    ensures |lists| == n
  {
    seq(n, _ => [])
  }

  predicate SubHit(t: Tree, h: Hit) {
    h.index < |t.captures| && t.captures[h.index].Sub?
  }

  // ----- matching without a cache

  function Match(env: Env, t: Tree, root: Node): seq<Res>
    decreases t, 4, 0
  {
    var lists := Collect(env, t, env.raw(t.query, root));
    if [] in lists then [] else Unblocked(env, t, root, MergeAll(env, lists))
  }

  /** The results of each pattern. */
  function Collect(env: Env, t: Tree, raws: seq<Raw>): (lists: seq<seq<Res>>)
    ensures |lists| == t.patterns
    decreases t, 3, |raws|
  {
    if raws == [] then NoLists(t.patterns)
    else
      var m := raws[|raws| - 1];
      var lists := Collect(env, t, raws[..|raws| - 1]);
      if m.pattern < t.patterns then lists[m.pattern := lists[m.pattern] + Process(env, t, m)] else lists
  }

  function Process(env: Env, t: Tree, m: Raw): seq<Res>
    decreases t, 2, 0
  {
    match env.base(t.query, t.id, m)
    case None => []
    case Some(r) => Subs(env, t, m.hits, [r])
  }

  /** The sub-queries of a match run and merged, one after the other. */
  function Subs(env: Env, t: Tree, hits: seq<Hit>, start: seq<Res>): seq<Res>
    decreases t, 1, |hits|
  {
    if hits == [] then start
    else
      var h := hits[|hits| - 1];
      var before := Subs(env, t, hits[..|hits| - 1], start);
      if !SubHit(t, h) || before == [] then before
      else Merge(env, before, Match(env, t.captures[h.index].tree, h.node), false)
  }

  /** Some negation from the i-th on has a match that rules the result out. */
  predicate Blocked(env: Env, t: Tree, root: Node, result: Res, i: nat)
    requires i <= |t.negations|
    decreases t, 1, |t.negations| - i
  {
    i < |t.negations| &&
    (AnyBlocks(env, t.id, t.negations[i].after, Match(env, t.negations[i].tree, root), result) || Blocked(env, t, root, result, i + 1))
  }

  function Unblocked(env: Env, t: Tree, root: Node, results: seq<Res>): seq<Res>
    decreases t, 2, |results|
  {
    if results == [] then []
    else
      Unblocked(env, t, root, results[..|results| - 1]) +
      if Blocked(env, t, root, results[|results| - 1], 0) then [] else [results[|results| - 1]]
  }

  // ----- matching with the cache

  datatype Key = Key(id: int, node: Node)

  type Cache = map<Key, seq<Res>>

  datatype Out<T> = Out(value: T, cache: Cache)

  function CMatch(env: Env, t: Tree, root: Node, cache: Cache): Out<seq<Res>>
    decreases t, 4, 0
  {
    var o := CCollect(env, t, env.raw(t.query, root), cache);
    if [] in o.value then Out([], o.cache) else CUnblocked(env, t, root, MergeAll(env, o.value), o.cache)
  }

  function CCollect(env: Env, t: Tree, raws: seq<Raw>, cache: Cache): (o: Out<seq<seq<Res>>>)
    ensures |o.value| == t.patterns
    decreases t, 3, |raws|
  {
    if raws == [] then Out(NoLists(t.patterns), cache)
    else
      var m := raws[|raws| - 1];
      var o := CCollect(env, t, raws[..|raws| - 1], cache);
      if m.pattern < t.patterns then
        var p := CProcess(env, t, m, o.cache);
        Out(o.value[m.pattern := o.value[m.pattern] + p.value], p.cache)
      else o
  }

  function CProcess(env: Env, t: Tree, m: Raw, cache: Cache): Out<seq<Res>>
    decreases t, 2, 0
  {
    match env.base(t.query, t.id, m)
    case None => Out([], cache)
    case Some(r) => CSubs(env, t, m.hits, [r], cache)
  }

  function CSubs(env: Env, t: Tree, hits: seq<Hit>, start: seq<Res>, cache: Cache): Out<seq<Res>>
    decreases t, 1, |hits|
  {
    if hits == [] then Out(start, cache)
    else
      var h := hits[|hits| - 1];
      var before := CSubs(env, t, hits[..|hits| - 1], start, cache);
      if !SubHit(t, h) || before.value == [] then before
      else
        var sub := t.captures[h.index].tree;
        var key := Key(sub.id, h.node);
        if key in before.cache then Out(Merge(env, before.value, before.cache[key], false), before.cache)
        else
          var o := CMatch(env, sub, h.node, before.cache);
          Out(Merge(env, before.value, o.value, false), o.cache[key := o.value])
  }

  /** Negations after one that rules the result out are not run. */
  function CBlocked(env: Env, t: Tree, root: Node, result: Res, i: nat, cache: Cache): Out<bool>
    requires i <= |t.negations|
    decreases t, 1, |t.negations| - i
  {
    if i == |t.negations| then Out(false, cache)
    else
      var o := CMatch(env, t.negations[i].tree, root, cache);
      if AnyBlocks(env, t.id, t.negations[i].after, o.value, result) then Out(true, o.cache)
      else CBlocked(env, t, root, result, i + 1, o.cache)
  }

  function CUnblocked(env: Env, t: Tree, root: Node, results: seq<Res>, cache: Cache): Out<seq<Res>>
    decreases t, 2, |results|
  {
    if results == [] then Out([], cache)
    else
      var o := CUnblocked(env, t, root, results[..|results| - 1], cache);
      var b := CBlocked(env, t, root, results[|results| - 1], 0, o.cache);
      Out(o.value + if b.value then [] else [results[|results| - 1]], b.cache)
  }

  // ----- transparency

  /** The book gives each id of a captured sub-query one tree. */
  predicate Booked(book: map<int, Tree>, t: Tree)
    decreases t, 1
  {
    && (forall i :: 0 <= i < |t.captures| ==> BookedCapture(book, t.captures[i]))
    && (forall i :: 0 <= i < |t.negations| ==> Booked(book, t.negations[i].tree))
  }

  predicate BookedCapture(book: map<int, Tree>, c: Capture)
    decreases c, 0
  {
    c.Sub? ==> c.tree.id in book && book[c.tree.id] == c.tree && Booked(book, c.tree)
  }

  /** Every entry is what its sub-query gives at its node. */
  ghost predicate Correct(env: Env, book: map<int, Tree>, cache: Cache) {
    forall k :: k in cache ==> k.id in book && cache[k] == Match(env, book[k.id], k.node)
  }

  /** With one tree per id, cached matching gives what matching without a cache gives, and keeps the cache correct. */
  lemma {:induction false} Transparent(env: Env, book: map<int, Tree>, t: Tree, root: Node, cache: Cache)
    requires Booked(book, t) && Correct(env, book, cache)
    ensures CMatch(env, t, root, cache).value == Match(env, t, root)
    ensures Correct(env, book, CMatch(env, t, root, cache).cache)
    decreases t, 4, 0
  {
    var raws := env.raw(t.query, root);
    CollectSame(env, book, t, raws, cache);
    var o := CCollect(env, t, raws, cache);
    if [] !in o.value { UnblockedSame(env, book, t, root, MergeAll(env, o.value), o.cache); }
  }

  lemma {:induction false} CollectSame(env: Env, book: map<int, Tree>, t: Tree, raws: seq<Raw>, cache: Cache)
    requires Booked(book, t) && Correct(env, book, cache)
    ensures CCollect(env, t, raws, cache).value == Collect(env, t, raws)
    ensures Correct(env, book, CCollect(env, t, raws, cache).cache)
    decreases t, 3, |raws|
  {
    if raws != [] {
      var m := raws[|raws| - 1];
      CollectSame(env, book, t, raws[..|raws| - 1], cache);
      if m.pattern < t.patterns { ProcessSame(env, book, t, m, CCollect(env, t, raws[..|raws| - 1], cache).cache); }
    }
  }

  lemma {:induction false} ProcessSame(env: Env, book: map<int, Tree>, t: Tree, m: Raw, cache: Cache)
    requires Booked(book, t) && Correct(env, book, cache)
    ensures CProcess(env, t, m, cache).value == Process(env, t, m)
    ensures Correct(env, book, CProcess(env, t, m, cache).cache)
    decreases t, 2, 0
  {
    match env.base(t.query, t.id, m) {
      case None =>
      case Some(r) => SubsSame(env, book, t, m.hits, [r], cache);
    }
  }

  lemma {:induction false} SubsSame(env: Env, book: map<int, Tree>, t: Tree, hits: seq<Hit>, start: seq<Res>, cache: Cache)
    requires Booked(book, t) && Correct(env, book, cache)
    ensures CSubs(env, t, hits, start, cache).value == Subs(env, t, hits, start)
    ensures Correct(env, book, CSubs(env, t, hits, start, cache).cache)
    decreases t, 1, |hits|
  {
    if hits != [] {
      var h := hits[|hits| - 1];
      SubsSame(env, book, t, hits[..|hits| - 1], start, cache);
      var before := CSubs(env, t, hits[..|hits| - 1], start, cache);
      if SubHit(t, h) && before.value != [] {
        assert BookedCapture(book, t.captures[h.index]);
        var sub := t.captures[h.index].tree;
        if Key(sub.id, h.node) !in before.cache { Transparent(env, book, sub, h.node, before.cache); }
      }
    }
  }

  lemma {:induction false} BlockedSame(env: Env, book: map<int, Tree>, t: Tree, root: Node, result: Res, i: nat, cache: Cache)
    requires i <= |t.negations| && Booked(book, t) && Correct(env, book, cache)
    ensures CBlocked(env, t, root, result, i, cache).value == Blocked(env, t, root, result, i)
    ensures Correct(env, book, CBlocked(env, t, root, result, i, cache).cache)
    decreases t, 1, |t.negations| - i
  {
    if i < |t.negations| {
      var neg := t.negations[i];
      assert Booked(book, neg.tree);
      Transparent(env, book, neg.tree, root, cache);
      var o := CMatch(env, neg.tree, root, cache);
      if !AnyBlocks(env, t.id, neg.after, o.value, result) { BlockedSame(env, book, t, root, result, i + 1, o.cache); }
    }
  }

  lemma {:induction false} UnblockedSame(env: Env, book: map<int, Tree>, t: Tree, root: Node, results: seq<Res>, cache: Cache)
    requires Booked(book, t) && Correct(env, book, cache)
    ensures CUnblocked(env, t, root, results, cache).value == Unblocked(env, t, root, results)
    ensures Correct(env, book, CUnblocked(env, t, root, results, cache).cache)
    decreases t, 2, |results|
  {
    if results != [] {
      var front, last := results[..|results| - 1], results[|results| - 1];
      UnblockedSame(env, book, t, root, front, cache);
      BlockedSame(env, book, t, root, last, 0, CUnblocked(env, t, root, front, cache).cache);
    }
  }

  // ----- from ids to a book

  /** All captured sub-queries of a tree, also those inside negations. */
  function Captured(t: Tree): seq<Tree>
    decreases t, 2, 0
  {
    FromCaptures(t, |t.captures|) + FromNegations(t, |t.negations|)
  }

  function FromCaptures(t: Tree, n: nat): seq<Tree>
    requires n <= |t.captures|
    decreases t, 1, n
  {
    if n == 0 then []
    else
      FromCaptures(t, n - 1) +
      match t.captures[n - 1] { case Sub(sub) => [sub] + Captured(sub) case Plain => [] }
  }

  function FromNegations(t: Tree, n: nat): seq<Tree>
    requires n <= |t.negations|
    decreases t, 1, n
  {
    if n == 0 then [] else FromNegations(t, n - 1) + Captured(t.negations[n - 1].tree)
  }

  /** The same id is never given to two different sub-queries. */
  ghost predicate Consistent(ts: seq<Tree>) {
    forall i, j :: 0 <= i < j < |ts| && ts[i].id == ts[j].id ==> ts[i] == ts[j]
  }

  function BookOf(ts: seq<Tree>): map<int, Tree> {
    if ts == [] then map[] else BookOf(ts[..|ts| - 1])[ts[|ts| - 1].id := ts[|ts| - 1]]
  }

  ghost predicate Listed(book: map<int, Tree>, ts: seq<Tree>) {
    forall i :: 0 <= i < |ts| ==> ts[i].id in book && book[ts[i].id] == ts[i]
  }

  lemma {:induction false} BookOfLists(ts: seq<Tree>)
    requires Consistent(ts)
    ensures Listed(BookOf(ts), ts)
  {
    if ts != [] { BookOfLists(ts[..|ts| - 1]); }
  }

  lemma ListedConcat(book: map<int, Tree>, a: seq<Tree>, b: seq<Tree>)
    ensures Listed(book, a + b) <==> Listed(book, a) && Listed(book, b)
  {
    assert forall i :: 0 <= i < |a| ==> (a + b)[i] == a[i];
    forall i | 0 <= i < |b| && Listed(book, a + b) ensures b[i].id in book && book[b[i].id] == b[i] { assert (a + b)[|a| + i] == b[i]; }
  }

  lemma {:induction false} ListedIsBooked(book: map<int, Tree>, t: Tree)
    requires Listed(book, Captured(t))
    ensures Booked(book, t)
    decreases t, 2, 0
  {
    ListedConcat(book, FromCaptures(t, |t.captures|), FromNegations(t, |t.negations|));
    forall i | 0 <= i < |t.captures| ensures BookedCapture(book, t.captures[i]) { CaptureBooked(book, t, |t.captures|, i); }
    forall i | 0 <= i < |t.negations| ensures Booked(book, t.negations[i].tree) { NegationBooked(book, t, |t.negations|, i); }
  }

  lemma {:induction false} CaptureBooked(book: map<int, Tree>, t: Tree, n: nat, i: nat)
    requires i < n <= |t.captures| && Listed(book, FromCaptures(t, n))
    ensures BookedCapture(book, t.captures[i])
    decreases t, 1, n
  {
    match t.captures[n - 1] {
      case Sub(sub) =>
        ListedConcat(book, FromCaptures(t, n - 1), [sub] + Captured(sub));
        ListedConcat(book, [sub], Captured(sub));
        if i == n - 1 {
          assert [sub][0] == sub;
          ListedIsBooked(book, sub);
        } else {
          CaptureBooked(book, t, n - 1, i);
        }
      case Plain =>
        ListedConcat(book, FromCaptures(t, n - 1), []);
        if i < n - 1 { CaptureBooked(book, t, n - 1, i); }
    }
  }

  lemma {:induction false} NegationBooked(book: map<int, Tree>, t: Tree, n: nat, i: nat)
    requires i < n <= |t.negations| && Listed(book, FromNegations(t, n))
    ensures Booked(book, t.negations[i].tree)
    decreases t, 1, n
  {
    ListedConcat(book, FromNegations(t, n - 1), Captured(t.negations[n - 1].tree));
    if i == n - 1 { ListedIsBooked(book, t.negations[i].tree); } else { NegationBooked(book, t, n - 1, i); }
  }

  /** For every query tree whose ids tell its captured sub-queries apart, matching from an empty cache is matching without one. */
  lemma ConsistentIsTransparent(env: Env, t: Tree, root: Node)
    requires Consistent(Captured(t))
    ensures CMatch(env, t, root, map[]).value == Match(env, t, root)
  {
    var book := BookOf(Captured(t));
    BookOfLists(Captured(t));
    ListedIsBooked(book, t);
    Transparent(env, book, t, root, map[]);
  }
}
