/**
 The matcher as it runs: loops that fill result lists and the cache in place.
 */
module QueryMatcher {
  import opened Basics
  import opened QueryMatch
  import opened QueryAnswers

  /** Equal neighbours are merged into one. */
  function Dedup(s: seq<Res>): seq<Res> {
    if |s| <= 1 then s
    else if s[|s| - 1] == s[|s| - 2] then Dedup(s[..|s| - 1])
    else Dedup(s[..|s| - 1]) + [s[|s| - 1]]
  }

  method MergeQueryResults(env: Env, results: seq<Res>, subs: seq<Res>, ordered: bool) returns (merged: seq<Res>)
    // one result for every pair that merges, row by row
    ensures exists pairs :: EveryPair(env, results, subs, ordered, merged, pairs)
    ensures forall x :: x in merged <==> exists i, j :: 0 <= i < |results| && 0 <= j < |subs| && env.merge(results[i], subs[j], ordered) == Some(x)
    ensures merged == Merge(env, results, subs, ordered)
  {
    merged := [];
    var i := 0;
    while i < |results|
      invariant i <= |results| && merged == Merge(env, results[..i], subs, ordered)
    {
      assert results[..i + 1][..i] == results[..i];
      var row: seq<Res> := [];
      var j := 0;
      while j < |subs|
        invariant j <= |subs| && row == MergeWith(env, results[i], subs[..j], ordered)
      {
        assert subs[..j + 1][..j] == subs[..j];
        match env.merge(results[i], subs[j], ordered) {
          case None =>
          case Some(x) => row := row + [x];
        }
        j := j + 1;
      }
      assert subs[..j] == subs;
      merged := merged + row;
      i := i + 1;
    }
    assert results[..i] == results;
    ghost var pairs := MergePairs(env, results, subs, ordered);
    hide Merge, MergeWith;
    PairsAll(env, results, subs, ordered, merged, pairs);
  }

  lemma PairsAll(env: Env, results: seq<Res>, subs: seq<Res>, ordered: bool, merged: seq<Res>, pairs: seq<Pair>)
    requires EveryPair(env, results, subs, ordered, merged, pairs)
    ensures forall x :: x in merged <==> exists i, j :: 0 <= i < |results| && 0 <= j < |subs| && env.merge(results[i], subs[j], ordered) == Some(x)
  {
    forall x | x in merged ensures exists i, j :: 0 <= i < |results| && 0 <= j < |subs| && env.merge(results[i], subs[j], ordered) == Some(x) {
      var k :| 0 <= k < |merged| && merged[k] == x;
      assert Merges(env, results, subs, ordered, pairs[k], merged[k]);
    }
    forall i, j, x | 0 <= i < |results| && 0 <= j < |subs| && env.merge(results[i], subs[j], ordered) == Some(x) ensures x in merged {
      MergedTo(env, results, subs, ordered, merged, pairs, results[i], subs[j], x);
    }
  }

  method MergePatterns(env: Env, lists: seq<seq<Res>>) returns (merged: seq<Res>)
    requires [] !in lists
    ensures forall x :: x in merged <==> exists rs :: FromEach(lists, rs) && Folded(env, rs, x)
    ensures merged == MergeAll(env, lists)
  {
    forall x ensures x in MergeAll(env, lists) <==> exists rs :: FromEach(lists, rs) && Folded(env, rs, x) { FoldedExactly(env, lists, x); }
    hide Folded, FromEach;
    merged := [];
    var i := 0;
    while i < |lists|
      invariant i <= |lists| && merged == MergeAll(env, lists[..i]) && (i > 0 ==> merged != [])
    {
      assert lists[..i + 1][..i] == lists[..i];
      if merged == [] {
        assert i == 0 && lists[0] in lists;
        merged := merged + lists[i];
      } else {
        merged := MergeQueryResults(env, merged, lists[i], true);
        if merged == [] {
          EmptyStays(env, lists, i + 1);
          return;
        }
      }
      i := i + 1;
    }
    assert lists[..i] == lists;
  }

  lemma {:induction false} EmptyStays(env: Env, lists: seq<seq<Res>>, i: nat)
    requires 1 < i <= |lists| && MergeAll(env, lists[..i]) == []
    ensures MergeAll(env, lists) == []
    decreases |lists| - i
  {
    if i < |lists| {
      assert lists[..i + 1][..i] == lists[..i];
      EmptyStays(env, lists, i + 1);
    } else {
      assert lists[..i] == lists;
    }
  }

  class Matcher {
    const env: Env
    var cache: Cache

    constructor (env: Env)
      ensures this.env == env && cache == map[]
    {
      this.env, cache := env, map[];
    }

    method MatchInternal(t: Tree, root: Node) returns (results: seq<Res>)
      modifies this
      ensures Out(results, cache) == CMatch(env, t, root, old(cache))
      decreases t, 4
    {
      var raws := env.raw(t.query, root);
      var lists := NoLists(t.patterns);
      var i := 0;
      while i < |raws|
        invariant i <= |raws| && |lists| == t.patterns && Out(lists, cache) == CCollect(env, t, raws[..i], old(cache))
      {
        assert raws[..i + 1][..i] == raws[..i];
        var m := raws[i];
        if m.pattern < t.patterns {
          var more := ProcessMatch(t, m);
          lists := lists[m.pattern := lists[m.pattern] + more];
        }
        i := i + 1;
      }
      assert raws[..i] == raws;
      if [] in lists { return []; }
      var merged := MergePatterns(env, lists);
      results := Filter(t, root, merged);
    }

    method ProcessMatch(t: Tree, m: Raw) returns (results: seq<Res>)
      modifies this
      ensures Out(results, cache) == CProcess(env, t, m, old(cache))
      decreases t, 2
    {
      hide Merge, CMatch;
      match env.base(t.query, t.id, m) {
        case None => return [];
        case Some(r) => results := [r];
      }
      var i := 0;
      while i < |m.hits|
        invariant i <= |m.hits| && Out(results, cache) == CSubs(env, t, m.hits[..i], [env.base(t.query, t.id, m).value], old(cache))
      {
        assert m.hits[..i + 1][..i] == m.hits[..i];
        var h := m.hits[i];
        if SubHit(t, h) && results != [] {
          var sub := t.captures[h.index].tree;
          var key := Key(sub.id, h.node);
          if key !in cache {
            var v := MatchInternal(sub, h.node);
            cache := cache[key := v];
          }
          results := MergeQueryResults(env, results, cache[key], false);
        }
        i := i + 1;
      }
      assert m.hits[..i] == m.hits;
    }

    /** Keeps the results that no negation rules out. */
    method Filter(t: Tree, root: Node, merged: seq<Res>) returns (results: seq<Res>)
      modifies this
      ensures Out(results, cache) == CUnblocked(env, t, root, merged, old(cache))
      decreases t, 2
    {
      results := [];
      var i := 0;
      while i < |merged|
        invariant i <= |merged| && Out(results, cache) == CUnblocked(env, t, root, merged[..i], old(cache))
      {
        assert merged[..i + 1][..i] == merged[..i];
        var blocked := IsBlocked(t, root, merged[i]);
        assert results + [] == results;
        if !blocked { results := results + [merged[i]]; }
        i := i + 1;
      }
      assert merged[..i] == merged;
    }

    method IsBlocked(t: Tree, root: Node, result: Res) returns (blocked: bool)
      modifies this
      ensures Out(blocked, cache) == CBlocked(env, t, root, result, 0, old(cache))
      decreases t, 1
    {
      var i := 0;
      while i < |t.negations|
        invariant i <= |t.negations| && CBlocked(env, t, root, result, i, cache) == CBlocked(env, t, root, result, 0, old(cache))
      {
        var neg := t.negations[i];
        var ns := MatchInternal(neg.tree, root);
        if AnyBlocks(env, t.id, neg.after, ns, result) { return true; }
        i := i + 1;
      }
      blocked := false;
    }

    /** QueryTree::matches. */
    method Matches(t: Tree, root: Node) returns (results: seq<Res>)
      requires Consistent(Captured(t)) && cache == map[]
      modifies this
      // exactly the answers of the query, and no two equal ones in a row
      ensures forall x :: x in results <==> Answer(env, t, root, x)
      ensures forall i :: 0 < i < |results| ==> results[i - 1] != results[i]
      ensures results == Dedup(Match(env, t, root))
    {
      hide Match, CMatch, Answer, Captured;
      Answers(env, t, root);
      var all := MatchInternal(t, root);
      results := [];
      var i := 0;
      while i < |all|
        invariant i <= |all| && results == Dedup(all[..i])
      {
        assert all[..i + 1][..i] == all[..i];
        if i == 0 || all[i] != all[i - 1] { results := results + [all[i]]; }
        i := i + 1;
      }
      assert all[..i] == all;
    }
  }

  lemma Answers(env: Env, t: Tree, root: Node)
    requires Consistent(Captured(t))
    ensures CMatch(env, t, root, map[]).value == Match(env, t, root)
    ensures forall x :: x in Dedup(Match(env, t, root)) <==> Answer(env, t, root, x)
    ensures var results := Dedup(Match(env, t, root)); forall i :: 0 < i < |results| ==> results[i - 1] != results[i]
  {
    hide Match, CMatch, Answer, Captured;
    ConsistentIsTransparent(env, t, root);
    forall x ensures x in Match(env, t, root) <==> Answer(env, t, root, x) { MatchExactly(env, t, root, x); }
    DedupMeaning(Match(env, t, root));
  }

  /** Deduplication keeps the same results, and no two equal neighbours. */
  lemma {:induction false} DedupMeaning(s: seq<Res>)
    ensures forall x :: x in Dedup(s) <==> x in s
    ensures forall i :: 0 < i < |Dedup(s)| ==> Dedup(s)[i - 1] != Dedup(s)[i]
    ensures s != [] ==> Dedup(s) != [] && Dedup(s)[|Dedup(s)| - 1] == s[|s| - 1]
  {
    if |s| > 1 { DedupMeaning(s[..|s| - 1]); }
  }

  /** What is left is where it was. */
  lemma {:induction false} DedupInOrder(s: seq<Res>) returns (keep: seq<nat>)
    ensures InOrder(s, Dedup(s), keep)
  {
    if |s| <= 1 {
      keep := seq(|s|, k => k);
    } else {
      keep := DedupInOrder(s[..|s| - 1]);
      KeepMore(s, Dedup(s[..|s| - 1]), keep, s[|s| - 1] != s[|s| - 2]);
      if s[|s| - 1] != s[|s| - 2] { keep := keep + [|s| - 1]; }
    }
  }
}
