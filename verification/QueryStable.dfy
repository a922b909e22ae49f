/**
 Where ids grow on the way down a tree, the memo only grows, and a query that is matched again gives
 the same results and leaves the memo as it is.
 */
module QueryStable {
  import opened QueryMatch

  /** Every sub-query and negation has a greater id than the query it is in. */
  predicate Rising(t: Tree)
    decreases t, 1
  {
    && (forall i :: 0 <= i < |t.captures| ==> RisingCapture(t.id, t.captures[i]))
    && (forall i :: 0 <= i < |t.negations| ==> t.negations[i].tree.id > t.id && Rising(t.negations[i].tree))
  }

  predicate RisingCapture(id: int, c: Capture)
    decreases c, 0
  {
    c.Sub? ==> c.tree.id > id && Rising(c.tree)
  }

  ghost predicate Within(small: Cache, large: Cache) {
    forall k :: k in small ==> k in large && large[k] == small[k]
  }

  /** Nothing is forgotten, and what is new has a greater id. */
  ghost predicate Grown(cache: Cache, after: Cache, id: int) {
    Within(cache, after) && forall k :: k in after ==> k in cache || k.id > id
  }

  // ----- the memo only grows

  lemma {:induction false} MatchGrows(env: Env, t: Tree, root: Node, cache: Cache)
    requires Rising(t)
    ensures Grown(cache, CMatch(env, t, root, cache).cache, t.id)
    decreases t, 4, 0
  {
    hide Rising;
    var o := CCollect(env, t, env.raw(t.query, root), cache);
    CollectGrows(env, t, env.raw(t.query, root), cache);
    if [] !in o.value { UnblockedGrows(env, t, root, MergeAll(env, o.value), o.cache); }
  }

  lemma {:induction false} CollectGrows(env: Env, t: Tree, raws: seq<Raw>, cache: Cache)
    requires Rising(t)
    ensures Grown(cache, CCollect(env, t, raws, cache).cache, t.id)
    decreases t, 3, |raws|
  {
    hide Rising, CProcess;
    if raws != [] {
      CollectGrows(env, t, raws[..|raws| - 1], cache);
      ProcessGrows(env, t, raws[|raws| - 1], CCollect(env, t, raws[..|raws| - 1], cache).cache);
    }
  }

  lemma {:induction false} ProcessGrows(env: Env, t: Tree, m: Raw, cache: Cache)
    requires Rising(t)
    ensures Grown(cache, CProcess(env, t, m, cache).cache, t.id)
    decreases t, 2, 0
  {
    hide Rising;
    match env.base(t.query, t.id, m)
    case None =>
    case Some(r) => SubsGrows(env, t, m.hits, [r], cache);
  }

  lemma {:induction false} SubsGrows(env: Env, t: Tree, hits: seq<Hit>, start: seq<Res>, cache: Cache)
    requires Rising(t)
    ensures Grown(cache, CSubs(env, t, hits, start, cache).cache, t.id)
    decreases t, 1, |hits|
  {
    if hits != [] {
      var h := hits[|hits| - 1];
      SubsGrows(env, t, hits[..|hits| - 1], start, cache);
      if SubHit(t, h) {
        assert RisingCapture(t.id, t.captures[h.index]);
        MatchGrows(env, t.captures[h.index].tree, h.node, CSubs(env, t, hits[..|hits| - 1], start, cache).cache);
      }
      hide CMatch, Rising;
    }
  }

  lemma {:induction false} BlockedGrows(env: Env, t: Tree, root: Node, result: Res, i: nat, cache: Cache)
    requires Rising(t) && i <= |t.negations|
    ensures Grown(cache, CBlocked(env, t, root, result, i, cache).cache, t.id)
    decreases t, 1, |t.negations| - i
  {
    if i < |t.negations| {
      var neg := t.negations[i].tree;
      assert neg.id > t.id && Rising(neg);
      MatchGrows(env, neg, root, cache);
      BlockedGrows(env, t, root, result, i + 1, CMatch(env, neg, root, cache).cache);
      hide CMatch, Rising;
    }
  }

  lemma {:induction false} UnblockedGrows(env: Env, t: Tree, root: Node, results: seq<Res>, cache: Cache)
    requires Rising(t)
    ensures Grown(cache, CUnblocked(env, t, root, results, cache).cache, t.id)
    decreases t, 2, |results|
  {
    hide Rising, CBlocked;
    if results != [] {
      UnblockedGrows(env, t, root, results[..|results| - 1], cache);
      BlockedGrows(env, t, root, results[|results| - 1], 0, CUnblocked(env, t, root, results[..|results| - 1], cache).cache);
    }
  }

  // ----- matching again

  /** Matching again, with whatever the memo has by then, gives the same and adds nothing. */
  lemma {:induction false} MatchAgain(env: Env, t: Tree, root: Node, cache: Cache, later: Cache)
    requires Rising(t) && Within(CMatch(env, t, root, cache).cache, later)
    ensures CMatch(env, t, root, later) == Out(CMatch(env, t, root, cache).value, later)
    decreases t, 4, 0
  {
    hide Rising;
    var raws := env.raw(t.query, root);
    var o := CCollect(env, t, raws, cache);
    if [] in o.value {
      CollectAgain(env, t, raws, cache, later);
    } else {
      UnblockedGrows(env, t, root, MergeAll(env, o.value), o.cache);
      CollectAgain(env, t, raws, cache, later);
      UnblockedAgain(env, t, root, MergeAll(env, o.value), o.cache, later);
    }
  }

  lemma {:induction false} CollectAgain(env: Env, t: Tree, raws: seq<Raw>, cache: Cache, later: Cache)
    requires Rising(t) && Within(CCollect(env, t, raws, cache).cache, later)
    ensures CCollect(env, t, raws, later) == Out(CCollect(env, t, raws, cache).value, later)
    decreases t, 3, |raws|
  {
    hide Rising, CProcess;
    if raws != [] {
      var front, m := raws[..|raws| - 1], raws[|raws| - 1];
      var o := CCollect(env, t, front, cache);
      ProcessGrows(env, t, m, o.cache);
      CollectAgain(env, t, front, cache, later);
      if m.pattern < t.patterns { ProcessAgain(env, t, m, o.cache, later); }
    }
  }

  lemma {:induction false} ProcessAgain(env: Env, t: Tree, m: Raw, cache: Cache, later: Cache)
    requires Rising(t) && Within(CProcess(env, t, m, cache).cache, later)
    ensures CProcess(env, t, m, later) == Out(CProcess(env, t, m, cache).value, later)
    decreases t, 2, 0
  {
    hide Rising;
    match env.base(t.query, t.id, m)
    case None =>
    case Some(r) => SubsAgain(env, t, m.hits, [r], cache, later);
  }

  lemma {:induction false} SubsAgain(env: Env, t: Tree, hits: seq<Hit>, start: seq<Res>, cache: Cache, later: Cache)
    requires Rising(t) && Within(CSubs(env, t, hits, start, cache).cache, later)
    ensures CSubs(env, t, hits, start, later) == Out(CSubs(env, t, hits, start, cache).value, later)
    decreases t, 1, |hits|
  {
    if hits != [] {
      var front, h := hits[..|hits| - 1], hits[|hits| - 1];
      var before := CSubs(env, t, front, start, cache);
      if SubHit(t, h) && before.value != [] {
        var sub := t.captures[h.index].tree;
        assert RisingCapture(t.id, t.captures[h.index]);
        MatchGrows(env, sub, h.node, before.cache);
        hide CMatch, Rising;
        SubsAgain(env, t, front, start, cache, later);
      } else {
        hide CMatch, Rising;
        SubsAgain(env, t, front, start, cache, later);
      }
    }
  }

  lemma {:induction false} BlockedAgain(env: Env, t: Tree, root: Node, result: Res, i: nat, cache: Cache, later: Cache)
    requires Rising(t) && i <= |t.negations| && Within(CBlocked(env, t, root, result, i, cache).cache, later)
    ensures CBlocked(env, t, root, result, i, later) == Out(CBlocked(env, t, root, result, i, cache).value, later)
    decreases t, 1, |t.negations| - i
  {
    if i < |t.negations| {
      var neg := t.negations[i].tree;
      assert neg.id > t.id && Rising(neg);
      var o := CMatch(env, neg, root, cache);
      BlockedGrows(env, t, root, result, i + 1, o.cache);
      hide CMatch, Rising;
      MatchAgain(env, neg, root, cache, later);
      if !AnyBlocks(env, t.id, t.negations[i].after, o.value, result) { BlockedAgain(env, t, root, result, i + 1, o.cache, later); }
    }
  }

  lemma {:induction false} UnblockedAgain(env: Env, t: Tree, root: Node, results: seq<Res>, cache: Cache, later: Cache)
    requires Rising(t) && Within(CUnblocked(env, t, root, results, cache).cache, later)
    ensures CUnblocked(env, t, root, results, later) == Out(CUnblocked(env, t, root, results, cache).value, later)
    decreases t, 2, |results|
  {
    hide Rising, CBlocked;
    if results != [] {
      var front, last := results[..|results| - 1], results[|results| - 1];
      var o := CUnblocked(env, t, root, front, cache);
      BlockedGrows(env, t, root, last, 0, o.cache);
      UnblockedAgain(env, t, root, front, cache, later);
      BlockedAgain(env, t, root, last, 0, o.cache, later);
    }
  }
}
