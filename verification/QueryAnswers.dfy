/**
 What matching is for, said without the lists that compute it: which results a query has at a node,
 in which order, and how often.
 */
module QueryAnswers {
  import opened Basics
  import opened QueryMatch

  // ----- merging two lists

  datatype Pair = Pair(i: nat, j: nat)

  predicate Before(a: Pair, b: Pair) {
    a.i < b.i || (a.i == b.i && a.j < b.j)
  }

  predicate Merges(env: Env, results: seq<Res>, subs: seq<Res>, ordered: bool, p: Pair, x: Res) {
    p.i < |results| && p.j < |subs| && env.merge(results[p.i], subs[p.j], ordered) == Some(x)
  }

  /** The list has one result for every pair that merges, row by row. */
  ghost predicate EveryPair(env: Env, results: seq<Res>, subs: seq<Res>, ordered: bool, merged: seq<Res>, pairs: seq<Pair>) {
    && |pairs| == |merged|
    && (forall k :: 0 <= k < |pairs| ==> Merges(env, results, subs, ordered, pairs[k], merged[k]))
    && (forall k, l :: 0 <= k < l < |pairs| ==> Before(pairs[k], pairs[l]))
    && (forall i: nat, j: nat, x :: Merges(env, results, subs, ordered, Pair(i, j), x) ==> Pair(i, j) in pairs)
  }

  /** The pairs of one row. */
  ghost predicate EveryInRow(env: Env, r: Res, subs: seq<Res>, ordered: bool, row: seq<Res>, js: seq<nat>) {
    && |js| == |row|
    && (forall k :: 0 <= k < |js| ==> js[k] < |subs| && env.merge(r, subs[js[k]], ordered) == Some(row[k]))
    && (forall k, l :: 0 <= k < l < |js| ==> js[k] < js[l])
    && (forall j: nat :: j < |subs| && env.merge(r, subs[j], ordered).Some? ==> j in js)
  }

  lemma {:induction false} RowPairs(env: Env, r: Res, subs: seq<Res>, ordered: bool) returns (js: seq<nat>)
    ensures EveryInRow(env, r, subs, ordered, MergeWith(env, r, subs, ordered), js)
  {
    if subs == [] {
      js := [];
    } else {
      var n := |subs| - 1;
      js := RowPairs(env, r, subs[..n], ordered);
      js := NextPair(env, r, subs, ordered, js);
    }
  }

  lemma NextPair(env: Env, r: Res, subs: seq<Res>, ordered: bool, front: seq<nat>) returns (js: seq<nat>)
    requires subs != [] && EveryInRow(env, r, subs[..|subs| - 1], ordered, MergeWith(env, r, subs[..|subs| - 1], ordered), front)
    ensures EveryInRow(env, r, subs, ordered, MergeWith(env, r, subs, ordered), js)
  {
    hide MergeWith, EveryInRow;
    var n := |subs| - 1;
    js := if env.merge(r, subs[n], ordered).Some? then front + [n] else front;
    assert subs == subs[..n] + [subs[n]];
    OneMore(env, r, subs[..n], subs[n], ordered, front);
  }

  lemma OneMore(env: Env, r: Res, subs: seq<Res>, last: Res, ordered: bool, js: seq<nat>)
    requires EveryInRow(env, r, subs, ordered, MergeWith(env, r, subs, ordered), js)
    ensures EveryInRow(env, r, subs + [last], ordered, MergeWith(env, r, subs + [last], ordered), if env.merge(r, last, ordered).Some? then js + [|subs|] else js)
  {
    assert (subs + [last])[..|subs|] == subs;
    var row := MergeWith(env, r, subs, ordered);
    match env.merge(r, last, ordered)
    case None =>
      assert MergeWith(env, r, subs + [last], ordered) == row + [];
      assert row + [] == row;
      hide MergeWith;
      OneSkipped(env, r, subs, last, ordered, row, js);
    case Some(x) =>
      assert MergeWith(env, r, subs + [last], ordered) == row + [x];
      hide MergeWith;
      OneAdded(env, r, subs, last, ordered, row, js, x);
  }

  lemma OneSkipped(env: Env, r: Res, subs: seq<Res>, last: Res, ordered: bool, row: seq<Res>, js: seq<nat>)
    requires EveryInRow(env, r, subs, ordered, row, js) && env.merge(r, last, ordered).None?
    ensures EveryInRow(env, r, subs + [last], ordered, row, js)
  {}

  lemma OneAdded(env: Env, r: Res, subs: seq<Res>, last: Res, ordered: bool, row: seq<Res>, js: seq<nat>, x: Res)
    requires EveryInRow(env, r, subs, ordered, row, js) && env.merge(r, last, ordered) == Some(x)
    ensures EveryInRow(env, r, subs + [last], ordered, row + [x], js + [|subs|])
  {
    var all, more := subs + [last], js + [|subs|];
    forall j: nat | j < |all| && env.merge(r, all[j], ordered).Some? ensures j in more {
      if j < |subs| { assert j in js; } else { assert more[|js|] == j; }
    }
  }

  function RowOf(i: nat, js: seq<nat>): (pairs: seq<Pair>)
    ensures |pairs| == |js| && forall k :: 0 <= k < |js| ==> pairs[k] == Pair(i, js[k])
  {
    seq(|js|, k requires 0 <= k < |js| => Pair(i, js[k]))
  }

  /** Merging lists every pair that merges, once, in order. */
  lemma {:induction false} MergePairs(env: Env, results: seq<Res>, subs: seq<Res>, ordered: bool) returns (pairs: seq<Pair>)
    ensures EveryPair(env, results, subs, ordered, Merge(env, results, subs, ordered), pairs)
  {
    if results == [] {
      pairs := [];
    } else {
      var n := |results| - 1;
      var front := MergePairs(env, results[..n], subs, ordered);
      var js := RowPairs(env, results[n], subs, ordered);
      pairs := front + RowOf(n, js);
      hide MergeWith;
      OneMoreRow(env, results, subs, ordered, front, js);
    }
  }

  lemma MergeLast(env: Env, results: seq<Res>, subs: seq<Res>, ordered: bool)
    requires results != []
    ensures Merge(env, results, subs, ordered) == Merge(env, results[..|results| - 1], subs, ordered) + MergeWith(env, results[|results| - 1], subs, ordered)
  {}

  lemma OneMoreRow(env: Env, results: seq<Res>, subs: seq<Res>, ordered: bool, front: seq<Pair>, js: seq<nat>)
    requires results != []
    requires EveryPair(env, results[..|results| - 1], subs, ordered, Merge(env, results[..|results| - 1], subs, ordered), front)
    requires EveryInRow(env, results[|results| - 1], subs, ordered, MergeWith(env, results[|results| - 1], subs, ordered), js)
    ensures EveryPair(env, results, subs, ordered, Merge(env, results, subs, ordered), front + RowOf(|results| - 1, js))
  {
    hide MergeWith, Merge;
    var n := |results| - 1;
    var pairs, merged := front + RowOf(n, js), Merge(env, results, subs, ordered);
    var head := Merge(env, results[..n], subs, ordered);
    MergeLast(env, results, subs, ordered);
    forall k | 0 <= k < |pairs| ensures Merges(env, results, subs, ordered, pairs[k], merged[k]) {
      if k < |front| { assert Merges(env, results[..n], subs, ordered, front[k], head[k]); }
    }
    forall k, l | 0 <= k < l < |pairs| ensures Before(pairs[k], pairs[l]) {
      if k < |front| { assert Merges(env, results[..n], subs, ordered, front[k], head[k]); }
    }
    forall i: nat, j: nat, x | Merges(env, results, subs, ordered, Pair(i, j), x) ensures Pair(i, j) in pairs {
      if i < n {
        assert Merges(env, results[..n], subs, ordered, Pair(i, j), x);
      } else {
        var k :| 0 <= k < |js| && js[k] == j;
        assert pairs[|front| + k] == Pair(i, j);
      }
    }
  }

  /** So a result is in the list exactly if some pair merges to it. */
  lemma MergedExactly(env: Env, results: seq<Res>, subs: seq<Res>, ordered: bool, x: Res)
    ensures x in Merge(env, results, subs, ordered) <==> exists r, y :: r in results && y in subs && env.merge(r, y, ordered) == Some(x)
  {
    hide Merge;
    var pairs := MergePairs(env, results, subs, ordered);
    var merged := Merge(env, results, subs, ordered);
    if x in merged { MergedFrom(env, results, subs, ordered, merged, pairs, x); }
    if r, y :| r in results && y in subs && env.merge(r, y, ordered) == Some(x) { MergedTo(env, results, subs, ordered, merged, pairs, r, y, x); }
  }

  lemma MergedFrom(env: Env, results: seq<Res>, subs: seq<Res>, ordered: bool, merged: seq<Res>, pairs: seq<Pair>, x: Res)
    requires EveryPair(env, results, subs, ordered, merged, pairs) && x in merged
    ensures exists r, y :: r in results && y in subs && env.merge(r, y, ordered) == Some(x)
  {
    var k :| 0 <= k < |merged| && merged[k] == x;
    assert Merges(env, results, subs, ordered, pairs[k], merged[k]);
    var r, y := results[pairs[k].i], subs[pairs[k].j];
    assert r in results && y in subs && env.merge(r, y, ordered) == Some(x);
  }

  lemma MergedTo(env: Env, results: seq<Res>, subs: seq<Res>, ordered: bool, merged: seq<Res>, pairs: seq<Pair>, r: Res, y: Res, x: Res)
    requires EveryPair(env, results, subs, ordered, merged, pairs) && r in results && y in subs && env.merge(r, y, ordered) == Some(x)
    ensures x in merged
  {
    var i: nat :| i < |results| && results[i] == r;
    var j: nat :| j < |subs| && subs[j] == y;
    assert Merges(env, results, subs, ordered, Pair(i, j), x);
    var k :| 0 <= k < |pairs| && pairs[k] == Pair(i, j);
    assert Merges(env, results, subs, ordered, pairs[k], merged[k]);
    assert merged[k] == x;
  }

  // ----- the results of a query

  /** One result of each of the lists, merged from left to right, gives x. */
  ghost predicate Folded(env: Env, rs: seq<Res>, x: Res)
    decreases |rs|, 0
  {
    rs != [] && if |rs| == 1 then x == rs[0] else Extends(env, rs[..|rs| - 1], rs[|rs| - 1], x)
  }

  ghost predicate Extends(env: Env, front: seq<Res>, last: Res, x: Res)
    decreases |front|, 1
  {
    exists y :: Folded(env, front, y) && env.merge(y, last, true) == Some(x)
  }

  ghost predicate FromEach(lists: seq<seq<Res>>, rs: seq<Res>) {
    |rs| == |lists| && forall p :: 0 <= p < |rs| ==> rs[p] in lists[p]
  }

  /** x is a result of the query: some matches of its patterns, with results of their sub-queries, merge to it, and no result of a negation rules it out. */
  ghost predicate Answer(env: Env, t: Tree, root: Node, x: Res)
    decreases t, 3
  {
    (exists rs :: Choice(env, t, root, rs, x)) && !RuledOut(env, t, root, x)
  }

  /** One result of each pattern, which merge to x. */
  ghost predicate Choice(env: Env, t: Tree, root: Node, rs: seq<Res>, x: Res)
    decreases t, 2, 1
  {
    |rs| == t.patterns && Folded(env, rs, x) && forall p :: 0 <= p < |rs| ==> Found(env, t, root, p, rs[p])
  }

  /** Some negation has a result that goes with x and lies where it must. */
  ghost predicate RuledOut(env: Env, t: Tree, root: Node, x: Res)
    decreases t, 2
  {
    exists j, n :: 0 <= j < |t.negations| && Answer(env, t.negations[j].tree, root, n) && Blocks(env, t.id, t.negations[j].after, n, x)
  }

  /** r comes from a match of pattern p. */
  ghost predicate Found(env: Env, t: Tree, root: Node, p: int, r: Res)
    decreases t, 2, 0
  {
    exists i :: 0 <= i < |env.raw(t.query, root)| && env.raw(t.query, root)[i].pattern == p && Comes(env, t, env.raw(t.query, root)[i], r)
  }

  /** r is what the match itself gives, merged with one result of each of its sub-queries. */
  ghost predicate Comes(env: Env, t: Tree, m: Raw, r: Res)
    decreases t, 1, |m.hits| + 1
  {
    env.base(t.query, t.id, m).Some? && With(env, t, m.hits, env.base(t.query, t.id, m).value, r)
  }

  ghost predicate With(env: Env, t: Tree, hits: seq<Hit>, b: Res, r: Res)
    decreases t, 1, |hits|, 0
  {
    if hits == [] then r == b else WithOne(env, t, hits[..|hits| - 1], hits[|hits| - 1], b, r)
  }

  ghost predicate WithOne(env: Env, t: Tree, front: seq<Hit>, h: Hit, b: Res, r: Res)
    decreases t, 1, |front|, 1
  {
    exists y :: With(env, t, front, b, y) && Taken(env, t, h, y, r)
  }

  ghost predicate Taken(env: Env, t: Tree, h: Hit, y: Res, r: Res)
    decreases t, 0
  {
    if SubHit(t, h) then exists z :: Answer(env, t.captures[h.index].tree, h.node, z) && env.merge(y, z, false) == Some(r) else r == y
  }

  // ----- the lists hold exactly these

  lemma {:induction false} FoldedExactly(env: Env, lists: seq<seq<Res>>, x: Res)
    requires [] !in lists
    ensures x in MergeAll(env, lists) <==> exists rs :: FromEach(lists, rs) && Folded(env, rs, x)
    decreases |lists|
  {
    if lists == [] {
    } else if |lists| == 1 {
      assert lists[..0] == [];
      if x in lists[0] { assert FromEach(lists, [x]) && Folded(env, [x], x); }
    } else {
      var front, last := lists[..|lists| - 1], lists[|lists| - 1];
      forall l | l in front ensures l in lists {}
      forall y ensures y in MergeAll(env, front) <==> exists rs :: FromEach(front, rs) && Folded(env, rs, y) { FoldedExactly(env, front, y); }
      var before := MergeAll(env, front);
      MergedExactly(env, before, last, true, x);
      EmptyMerge(env, last);
      hide Merge, MergeAll, Folded;
      UnfoldLast(env, lists, x);
      if y, z :| y in before && z in last && env.merge(y, z, true) == Some(x) {
        var rs :| FromEach(front, rs) && Folded(env, rs, y);
        LongerFold(env, lists, rs, y, z, x);
      }
      if rs, y, z :| FromEach(front, rs) && Folded(env, rs, y) && z in last && env.merge(y, z, true) == Some(x) { assert y in before; }
    }
  }

  lemma UnfoldLast(env: Env, lists: seq<seq<Res>>, x: Res)
    requires |lists| > 1
    ensures (exists rs :: FromEach(lists, rs) && Folded(env, rs, x)) ==>
              exists rs, y, z :: FromEach(lists[..|lists| - 1], rs) && Folded(env, rs, y) && z in lists[|lists| - 1] && env.merge(y, z, true) == Some(x)
  {
    if rs :| FromEach(lists, rs) && Folded(env, rs, x) {
      var front, z := rs[..|rs| - 1], rs[|rs| - 1];
      assert Extends(env, front, z, x);
      var y :| Folded(env, front, y) && env.merge(y, z, true) == Some(x);
      assert FromEach(lists[..|lists| - 1], front);
    }
  }

  lemma LongerFold(env: Env, lists: seq<seq<Res>>, rs: seq<Res>, y: Res, z: Res, x: Res)
    requires |lists| > 1 && FromEach(lists[..|lists| - 1], rs) && Folded(env, rs, y) && z in lists[|lists| - 1] && env.merge(y, z, true) == Some(x)
    ensures FromEach(lists, rs + [z]) && Folded(env, rs + [z], x)
  {
    assert (rs + [z])[..|rs|] == rs;
    assert Extends(env, rs, z, x);
  }

  lemma EmptyMerge(env: Env, subs: seq<Res>)
    ensures Merge(env, [], subs, true) == []
  {}

  lemma {:induction false} MatchExactly(env: Env, t: Tree, root: Node, x: Res)
    ensures x in Match(env, t, root) <==> Answer(env, t, root, x)
    decreases t, 4, 0
  {
    var raws := env.raw(t.query, root);
    var lists := Collect(env, t, raws);
    forall p, r | 0 <= p < t.patterns ensures r in lists[p] <==> Found(env, t, root, p, r) { FoundExactly(env, t, root, p, r); }
    if [] in lists {
      var p :| 0 <= p < |lists| && lists[p] == [];
      NoAnswer(env, t, root, p, x);
    } else {
      var merged := MergeAll(env, lists);
      FoldedExactly(env, lists, x);
      UnblockedExactly(env, t, root, merged, x);
      hide Collect, MergeAll, Unblocked, Folded, Found, RuledOut;
      if x in merged {
        var rs :| FromEach(lists, rs) && Folded(env, rs, x);
        assert Choice(env, t, root, rs, x);
      }
      if rs :| Choice(env, t, root, rs, x) { assert FromEach(lists, rs); }
    }
  }

  lemma NoAnswer(env: Env, t: Tree, root: Node, p: int, x: Res)
    requires 0 <= p < t.patterns && forall r :: !Found(env, t, root, p, r)
    ensures !Answer(env, t, root, x)
  {
    hide Found, Folded, RuledOut, Choice;
    forall rs ensures !Choice(env, t, root, rs, x) { NoChoice(env, t, root, p, rs, x); }
  }

  lemma NoChoice(env: Env, t: Tree, root: Node, p: int, rs: seq<Res>, x: Res)
    requires 0 <= p < t.patterns && (p < |rs| ==> !Found(env, t, root, p, rs[p]))
    ensures !Choice(env, t, root, rs, x)
  {
    hide Found, Folded;
  }

  lemma FoundExactly(env: Env, t: Tree, root: Node, p: int, r: Res)
    requires 0 <= p < t.patterns
    ensures r in Collect(env, t, env.raw(t.query, root))[p] <==> Found(env, t, root, p, r)
    decreases t, 3, 1
  {
    CollectExactly(env, t, env.raw(t.query, root), p, r);
    hide Collect, Comes;
  }

  lemma {:induction false} CollectExactly(env: Env, t: Tree, raws: seq<Raw>, p: int, r: Res)
    requires 0 <= p < t.patterns
    ensures r in Collect(env, t, raws)[p] <==> exists i :: 0 <= i < |raws| && raws[i].pattern == p && Comes(env, t, raws[i], r)
    decreases t, 3, 0, |raws|
  {
    if raws != [] {
      var n := |raws| - 1;
      CollectExactly(env, t, raws[..n], p, r);
      ProcessExactly(env, t, raws[n], r);
      hide Process, Comes;
      forall i | 0 <= i < n ensures raws[..n][i] == raws[i] {}
      assert Collect(env, t, raws)[p] == Collect(env, t, raws[..n])[p] + if raws[n].pattern == p then Process(env, t, raws[n]) else [];
      hide Collect;
      if i :| 0 <= i < n && raws[..n][i].pattern == p && Comes(env, t, raws[..n][i], r) { assert raws[i].pattern == p && Comes(env, t, raws[i], r); }
      if i :| 0 <= i < |raws| && raws[i].pattern == p && Comes(env, t, raws[i], r) {
        if i < n { assert raws[..n][i].pattern == p && Comes(env, t, raws[..n][i], r); }
      }
    }
  }

  lemma ProcessExactly(env: Env, t: Tree, m: Raw, r: Res)
    ensures r in Process(env, t, m) <==> Comes(env, t, m, r)
    decreases t, 2, 0
  {
    match env.base(t.query, t.id, m)
    case None =>
    case Some(b) => SubsExactly(env, t, m.hits, b, r);
  }

  lemma {:induction false} SubsExactly(env: Env, t: Tree, hits: seq<Hit>, b: Res, r: Res)
    ensures r in Subs(env, t, hits, [b]) <==> With(env, t, hits, b, r)
    decreases t, 1, |hits|
  {
    if hits != [] {
      var front, h := hits[..|hits| - 1], hits[|hits| - 1];
      forall y ensures y in Subs(env, t, front, [b]) <==> With(env, t, front, b, y) { SubsExactly(env, t, front, b, y); }
      var before := Subs(env, t, front, [b]);
      if SubHit(t, h) {
        var sub := t.captures[h.index].tree;
        forall z ensures z in Match(env, sub, h.node) <==> Answer(env, sub, h.node, z) { MatchExactly(env, sub, h.node, z); }
        hide Match, Answer;
        MergedExactly(env, before, Match(env, sub, h.node), false, r);
        hide Merge;
        WithExactly(env, t, front, h, b, r, before);
      } else {
        WithSame(env, t, front, h, b, r);
      }
    }
  }

  lemma WithSame(env: Env, t: Tree, front: seq<Hit>, h: Hit, b: Res, r: Res)
    requires !SubHit(t, h)
    ensures WithOne(env, t, front, h, b, r) <==> With(env, t, front, b, r)
  {
    if With(env, t, front, b, r) { assert Taken(env, t, h, r, r); }
  }

  lemma WithExactly(env: Env, t: Tree, front: seq<Hit>, h: Hit, b: Res, r: Res, before: seq<Res>)
    requires SubHit(t, h) && forall y :: y in before <==> With(env, t, front, b, y)
    ensures WithOne(env, t, front, h, b, r) <==>
            exists y, z :: y in before && Answer(env, t.captures[h.index].tree, h.node, z) && env.merge(y, z, false) == Some(r)
  {
    var sub := t.captures[h.index].tree;
    if y, z :| y in before && Answer(env, sub, h.node, z) && env.merge(y, z, false) == Some(r) {
      assert With(env, t, front, b, y) && Taken(env, t, h, y, r);
    }
    if WithOne(env, t, front, h, b, r) {
      assert WithOne(env, t, front, h, b, r);
      var y :| With(env, t, front, b, y) && Taken(env, t, h, y, r);
      var z :| Answer(env, sub, h.node, z) && env.merge(y, z, false) == Some(r);
      assert y in before;
    }
  }

  lemma {:induction false} BlockedExactly(env: Env, t: Tree, root: Node, x: Res, i: nat)
    requires i <= |t.negations|
    ensures Blocked(env, t, root, x, i) <==>
            exists j, n :: i <= j < |t.negations| && Answer(env, t.negations[j].tree, root, n) && Blocks(env, t.id, t.negations[j].after, n, x)
    decreases t, 1, |t.negations| - i
  {
    if i < |t.negations| {
      var neg := t.negations[i];
      forall n ensures n in Match(env, neg.tree, root) <==> Answer(env, neg.tree, root, n) { MatchExactly(env, neg.tree, root, n); }
      BlockedExactly(env, t, root, x, i + 1);
      hide Match, Answer, Blocks;
      var ns := Match(env, neg.tree, root);
      if AnyBlocks(env, t.id, neg.after, ns, x) {
        var k :| 0 <= k < |ns| && Blocks(env, t.id, neg.after, ns[k], x);
        assert ns[k] in ns;
      }
      if n :| Answer(env, neg.tree, root, n) && Blocks(env, t.id, neg.after, n, x) {
        var k :| 0 <= k < |ns| && ns[k] == n;
      }
    }
  }

  lemma {:induction false} UnblockedExactly(env: Env, t: Tree, root: Node, results: seq<Res>, x: Res)
    ensures x in Unblocked(env, t, root, results) <==> x in results && !RuledOut(env, t, root, x)
    decreases t, 2, |results|
  {
    if results != [] {
      var front, last := results[..|results| - 1], results[|results| - 1];
      UnblockedExactly(env, t, root, front, x);
      BlockedExactly(env, t, root, last, 0);
      hide Blocked, Answer;
      assert results == front + [last];
    }
  }

  // ----- order

  /** `some` is what is left of `all` at the places `keep`, in order. */
  ghost predicate InOrder(all: seq<Res>, some: seq<Res>, keep: seq<nat>) {
    && |keep| == |some|
    && (forall k :: 0 <= k < |keep| ==> keep[k] < |all| && some[k] == all[keep[k]])
    && (forall k, l :: 0 <= k < l < |keep| ==> keep[k] < keep[l])
  }

  /** Filtering keeps exactly the results that no negation rules out, where they are. */
  lemma {:induction false} UnblockedInOrder(env: Env, t: Tree, root: Node, results: seq<Res>) returns (keep: seq<nat>)
    ensures InOrder(results, Unblocked(env, t, root, results), keep)
    ensures forall i: nat :: i < |results| ==> (i in keep <==> !RuledOut(env, t, root, results[i]))
  {
    if results == [] {
      keep := [];
    } else {
      var n := |results| - 1;
      var front := UnblockedInOrder(env, t, root, results[..n]);
      UnblockedLast(env, t, root, results);
      hide InOrder, Unblocked, RuledOut;
      FrontPlaces(results[..n], Unblocked(env, t, root, results[..n]), front);
      KeepMore(results, Unblocked(env, t, root, results[..n]), front, !RuledOut(env, t, root, results[n]));
      keep := if RuledOut(env, t, root, results[n]) then front else front + [n];
      forall i: nat | i < |results| ensures i in keep <==> !RuledOut(env, t, root, results[i]) {
        if i < n { assert results[..n][i] == results[i]; }
        KeptPlace(front, n, i);
      }
    }
  }

  lemma UnblockedLast(env: Env, t: Tree, root: Node, results: seq<Res>)
    requires results != []
    ensures var n := |results| - 1;
            Unblocked(env, t, root, results) == Unblocked(env, t, root, results[..n]) + if RuledOut(env, t, root, results[n]) then [] else [results[n]]
  {
    BlockedExactly(env, t, root, results[|results| - 1], 0);
    hide Blocked, Answer;
  }

  lemma FrontPlaces(all: seq<Res>, some: seq<Res>, keep: seq<nat>)
    requires InOrder(all, some, keep)
    ensures forall k :: 0 <= k < |keep| ==> keep[k] < |all|
  {}

  lemma KeptPlace(front: seq<nat>, n: nat, i: nat)
    requires forall k :: 0 <= k < |front| ==> front[k] < n
    ensures (i in front + [n] <==> i in front || i == n) && n !in front
  {}

  lemma KeepMore(all: seq<Res>, some: seq<Res>, keep: seq<nat>, more: bool)
    requires all != [] && InOrder(all[..|all| - 1], some, keep)
    ensures if more then InOrder(all, some + [all[|all| - 1]], keep + [|all| - 1]) else InOrder(all, some, keep)
  {}
}
