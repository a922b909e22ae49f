/**
 An environment that notices every wrong answer of the memo. Every query matches, every captured
 sub-query is run, and a result tells which query it is of; a result that was merged with one of the
 wrong query is lost. For every negation there is besides a result that only this negation rules out,
 so that a negation without its result is noticed too. If matching with the memo gives what matching
 without it gives, then no captured sub-query got the results of another one.
 */
module QueryProbe {
  import opened Basics
  import opened QueryMatch
  import opened QueryStable

  // ----- results that tell what they are

  /** The result of a query, the result that only its k-th negation rules out, and a result that went wrong. */
  datatype Tag = Main(query: int, id: int) | Test(query: int, id: int, k: int) | Lost

  function Pair(a: nat, b: nat): nat {
    if a == 0 then 2 * b + 1 else 2 * Pair(a - 1, b)
  }

  lemma {:induction false} PairOnce(a: nat, b: nat, c: nat, d: nat)
    requires Pair(a, b) == Pair(c, d)
    ensures a == c && b == d
    decreases a
  {
    if a > 0 && c > 0 { PairOnce(a - 1, b, c - 1, d); }
  }

  function Fold(x: int): nat {
    if x >= 0 then 2 * x else -2 * x - 1
  }

  /** Results are numbers, so tags are numbered. */
  function Code(tag: Tag): Res {
    match tag
    case Main(query, id) => Pair(Fold(query), Pair(Fold(id), 0))
    case Test(query, id, k) => Pair(Fold(query), Pair(Fold(id), Fold(k) + 1))
    case Lost => -1
  }

  lemma CodeOnce(a: Tag, b: Tag)
    requires Code(a) == Code(b)
    ensures a == b
  {
    hide Pair;
    if a != Lost && b != Lost {
      var m, n := if a.Main? then 0 else Fold(a.k) + 1, if b.Main? then 0 else Fold(b.k) + 1;
      PairOnce(Fold(a.query), Pair(Fold(a.id), m), Fold(b.query), Pair(Fold(b.id), n));
      PairOnce(Fold(a.id), m, Fold(b.id), n);
    }
  }

  ghost function TagOf(r: Res): Tag {
    if exists tag :: Code(tag) == r then var tag :| Code(tag) == r; tag else Lost
  }

  lemma TagOfCode(tag: Tag)
    ensures TagOf(Code(tag)) == tag
  {
    hide Code;
    var other := TagOf(Code(tag));
    assert Code(other) == Code(tag);
    CodeOnce(tag, other);
  }

  // ----- the queries of a tree

  /** x is the query t, or somewhere in it. */
  ghost predicate Part(x: Tree, t: Tree)
    decreases t, 1
  {
    || x == t
    || (exists i :: 0 <= i < |t.captures| && PartOfCapture(x, t.captures[i]))
    || (exists i :: 0 <= i < |t.negations| && Part(x, t.negations[i].tree))
  }

  ghost predicate PartOfCapture(x: Tree, c: Capture)
    decreases c, 0
  {
    c.Sub? && Part(x, c.tree)
  }

  ghost predicate IsKid(x: Tree, kid: Tree) {
    (exists i :: 0 <= i < |x.captures| && x.captures[i] == Sub(kid)) || (exists i :: 0 <= i < |x.negations| && x.negations[i].tree == kid)
  }

  lemma {:induction false} KidIsPart(x: Tree, kid: Tree, t: Tree)
    requires Part(x, t) && IsKid(x, kid)
    ensures Part(kid, t)
    decreases t
  {
    if x == t {
      if i :| 0 <= i < |x.captures| && x.captures[i] == Sub(kid) { assert PartOfCapture(kid, t.captures[i]); }
    } else if i :| 0 <= i < |t.captures| && PartOfCapture(x, t.captures[i]) {
      KidIsPart(x, kid, t.captures[i].tree);
      assert PartOfCapture(kid, t.captures[i]);
    } else {
      var i :| 0 <= i < |t.negations| && Part(x, t.negations[i].tree);
      KidIsPart(x, kid, t.negations[i].tree);
    }
  }

  /** What the builder gives: ids that grow, that are distinct among the kids of a query, and numbers of
      queries by which they are known. */
  ghost predicate Tidy(t: Tree) {
    && (forall x :: Part(x, t) ==> Rising(x) && x.patterns >= 1 && KidsApart(x))
    && (forall x, y :: Part(x, t) && Part(y, t) && x.query == y.query ==> SameShape(x, y))
  }

  predicate SameShape(x: Tree, y: Tree) {
    && |x.captures| == |y.captures| && |x.negations| == |y.negations| && x.patterns == y.patterns
    && (x.id == y.id ==> x == y)
  }

  ghost predicate KidsApart(x: Tree) {
    && (forall i, j :: 0 <= i < |x.captures| && 0 <= j < |x.captures| && SameId(x.captures[i], x.captures[j]) ==> x.captures[i] == x.captures[j])
    && (forall i, j :: 0 <= i < j < |x.negations| ==> x.negations[i].tree.id != x.negations[j].tree.id)
  }

  predicate SameId(a: Capture, b: Capture) {
    a.Sub? && b.Sub? && a.tree.id == b.tree.id
  }

  function MainOf(x: Tree): Tag {
    Main(x.query, x.id)
  }

  // ----- the environment

  function AllHits(n: nat): (hits: seq<Hit>)
    ensures |hits| == n && forall i :: 0 <= i < n ==> hits[i] == Hit(i, 0)
  {
    seq(n, i requires 0 <= i < n => Hit(i, 0))
  }

  /** A match that hits no sub-query. */
  function TestRaw(captures: nat, k: nat): Raw {
    Raw(0, [Hit(captures, k), Hit(captures, k)])
  }

  /** One match with all hits, one for every negation, and one for every other pattern. */
  function RawsOf(x: Tree): (raws: seq<Raw>)
    requires x.patterns >= 1
    ensures |raws| == |x.negations| + x.patterns
    ensures forall i :: 0 <= i < |raws| ==> raws[i] == RawOf(x, i)
  {
    seq(|x.negations| + x.patterns, i requires 0 <= i < |x.negations| + x.patterns => RawOf(x, i))
  }

  function RawOf(x: Tree, i: nat): Raw {
    if i == 0 then Raw(0, AllHits(|x.captures|))
    else if i <= |x.negations| then TestRaw(|x.captures|, i - 1)
    else Raw(i - |x.negations|, [])
  }

  ghost function RawsFor(t: Tree, query: int): seq<Raw>
    requires Tidy(t)
  {
    if exists x :: Part(x, t) && x.query == query then var x :| Part(x, t) && x.query == query; RawsOf(x) else []
  }

  function BaseFor(query: int, id: int, m: Raw): Res {
    if m.pattern > 0 then 0
    else if |m.hits| >= 2 && m.hits[0] == m.hits[1] then Code(Test(query, id, m.hits[0].node))
    else Code(Main(query, id))
  }

  /** x with this tag has a captured sub-query with that tag. */
  ghost predicate KidTag(t: Tree, tag: Tag, kid: Tag) {
    exists x, i :: Part(x, t) && MainOf(x) == tag && 0 <= i < |x.captures| && x.captures[i].Sub? && MainOf(x.captures[i].tree) == kid
  }

  ghost function MergeFor(t: Tree, r: Res, x: Res, ordered: bool): Res {
    if ordered || KidTag(t, TagOf(r), TagOf(x)) then r else Code(Lost)
  }

  /** The k-th negation of x. */
  ghost predicate NegTag(t: Tree, query: int, id: int, k: int, neg: Tag) {
    exists x :: Part(x, t) && MainOf(x) == Main(query, id) && 0 <= k < |x.negations| && MainOf(x.negations[k].tree) == neg
  }

  /** A query's result is ruled out by anything that is not the result of one of its negations; a test by the result of its negation. */
  ghost predicate Stops(t: Tree, n: Tag, r: Tag) {
    match r
    case Main(query, id) => !exists k :: NegTag(t, query, id, k, n)
    case Test(query, id, k) => NegTag(t, query, id, k, n)
    case Lost => false
  }

  ghost function Probe(t: Tree): Env
    requires Tidy(t)
  {
    Env((query: int, root: Node) => RawsFor(t, query),
        (query: int, id: int, m: Raw) => Some(BaseFor(query, id, m)),
        (r: Res, x: Res, ordered: bool) => Some(MergeFor(t, r, x, ordered)),
        (id: int, after: int, n: Res, r: Res) => Stops(t, TagOf(n), TagOf(r)))
  }

  function C(x: Tree): Res {
    Code(MainOf(x))
  }

  function D(x: Tree, k: int): Res {
    Code(Test(x.query, x.id, k))
  }

  /** What the environment does at a query of the tree. */
  lemma ProbeAt(t: Tree, x: Tree, root: Node)
    requires Tidy(t) && Part(x, t)
    ensures x.patterns >= 1 && Rising(x) && KidsApart(x) && Probe(t).raw(x.query, root) == RawsOf(x)
    ensures Probe(t).base(x.query, x.id, RawOf(x, 0)) == Some(C(x))
    ensures forall i :: 0 < i <= |x.negations| ==> Probe(t).base(x.query, x.id, RawOf(x, i)) == Some(D(x, i - 1))
    ensures forall i :: i > |x.negations| ==> Probe(t).base(x.query, x.id, RawOf(x, i)) == Some(0)
  {
    hide Part, Rising, Code;
    var y :| Part(y, t) && y.query == x.query && RawsFor(t, x.query) == RawsOf(y);
    assert SameShape(x, y);
    assert forall i :: RawOf(y, i) == RawOf(x, i);
  }

  /** Merging keeps the result of x only with the result of one of its captured sub-queries. */
  lemma MergeAt(t: Tree, x: Tree, e: Res)
    requires Tidy(t) && Part(x, t)
    ensures MergeFor(t, C(x), e, false) == C(x) <==> exists i :: 0 <= i < |x.captures| && x.captures[i].Sub? && TagOf(e) == MainOf(x.captures[i].tree)
    ensures MergeFor(t, C(x), e, false) == C(x) || MergeFor(t, C(x), e, false) == Code(Lost)
    ensures MergeFor(t, Code(Lost), e, false) == Code(Lost)
  {
    TagOfCode(MainOf(x));
    TagOfCode(Lost);
    if C(x) == Code(Lost) { CodeOnce(MainOf(x), Lost); }
    hide Code, TagOf, Part;
    if KidTag(t, MainOf(x), TagOf(e)) {
      var y, i :| Part(y, t) && MainOf(y) == MainOf(x) && 0 <= i < |y.captures| && y.captures[i].Sub? && MainOf(y.captures[i].tree) == TagOf(e);
      assert SameShape(x, y);
    }
  }

  /** What rules out results of x. */
  lemma StopsAt(t: Tree, x: Tree, n: Tag, k: int)
    requires Tidy(t) && Part(x, t)
    ensures Stops(t, n, MainOf(x)) <==> forall j :: 0 <= j < |x.negations| ==> MainOf(x.negations[j].tree) != n
    ensures Stops(t, n, Test(x.query, x.id, k)) <==> 0 <= k < |x.negations| && MainOf(x.negations[k].tree) == n
  {
    hide Part;
    forall j | NegTag(t, x.query, x.id, j, n) ensures 0 <= j < |x.negations| && MainOf(x.negations[j].tree) == n {
      var y :| Part(y, t) && MainOf(y) == MainOf(x) && 0 <= j < |y.negations| && MainOf(y.negations[j].tree) == n;
      assert SameShape(x, y);
    }
    forall j | 0 <= j < |x.negations| && MainOf(x.negations[j].tree) == n ensures NegTag(t, x.query, x.id, j, n) {
      assert Part(x, t) && MainOf(x) == Main(x.query, x.id);
    }
  }

  // ----- the lists of the patterns

  function Tests(x: Tree, n: nat): (tests: seq<Res>)
    ensures |tests| == n && forall k :: 0 <= k < n ==> tests[k] == D(x, k)
  {
    seq(n, k requires 0 <= k < n => D(x, k))
  }

  /** The lists when m of the matches are done, and the first gave r. */
  function ListsAt(x: Tree, r: seq<Res>, m: nat): (lists: seq<seq<Res>>)
    requires x.patterns >= 1
    ensures |lists| == x.patterns
  {
    seq(x.patterns, p requires 0 <= p < x.patterns =>
      if p == 0 then (if m == 0 then [] else r + Tests(x, Min(m - 1, |x.negations|)))
      else if p + |x.negations| < m then [0] else [])
  }

  lemma ListsNext(x: Tree, r: seq<Res>, m: nat)
    requires x.patterns >= 1 && m < |x.negations| + x.patterns
    ensures var p := RawOf(x, m).pattern;
            p < x.patterns
            && ListsAt(x, r, m)[p := ListsAt(x, r, m)[p] + if m == 0 then r else if p == 0 then [D(x, m - 1)] else [0]] == ListsAt(x, r, m + 1)
  {
    hide Code;
    var p := RawOf(x, m).pattern;
    if m == 0 {
      assert Min(0, |x.negations|) == 0 && [] + r == r && r + Tests(x, 0) == r;
    } else if m <= |x.negations| {
      assert Min(m - 1, |x.negations|) == m - 1 && Min(m, |x.negations|) == m;
      assert Tests(x, m) == Tests(x, m - 1) + [D(x, m - 1)];
      assert r + Tests(x, m) == r + Tests(x, m - 1) + [D(x, m - 1)];
    } else {
      assert Min(m - 1, |x.negations|) == |x.negations| && Min(m, |x.negations|) == |x.negations|;
      assert [] + [0] == [0];
    }
  }

  lemma SkipHit(env: Env, x: Tree, hits: seq<Hit>, h: Hit, r: Res, cache: Cache)
    requires !SubHit(x, h)
    ensures Subs(env, x, hits + [h], [r]) == Subs(env, x, hits, [r]) && CSubs(env, x, hits + [h], [r], cache) == CSubs(env, x, hits, [r], cache)
  {
    hide Match, CMatch;
    assert (hits + [h])[..|hits|] == hits;
  }

  lemma NoSubHits(env: Env, x: Tree, i: nat, r: Res, cache: Cache)
    requires i > 0
    ensures Subs(env, x, RawOf(x, i).hits, [r]) == [r] && CSubs(env, x, RawOf(x, i).hits, [r], cache) == Out([r], cache)
  {
    hide Match, CMatch;
    if i <= |x.negations| {
      var h := Hit(|x.captures|, i - 1);
      SkipHit(env, x, [], h, r, cache);
      SkipHit(env, x, [] + [h], h, r, cache);
      assert RawOf(x, i).hits == [] + [h] + [h];
    }
  }

  /** One match of a query of the tree. */
  lemma ProbeProcess(t: Tree, x: Tree, i: nat, cache: Cache)
    requires Tidy(t) && Part(x, t)
    ensures var env, hits := Probe(t), AllHits(|x.captures|);
            && (i == 0 ==> Process(env, x, RawOf(x, i)) == Subs(env, x, hits, [C(x)]) && CProcess(env, x, RawOf(x, i), cache) == CSubs(env, x, hits, [C(x)], cache))
            && (i > 0 ==> var r := if i <= |x.negations| then D(x, i - 1) else 0;
                          Process(env, x, RawOf(x, i)) == [r] && CProcess(env, x, RawOf(x, i), cache) == Out([r], cache))
  {
    hide Tidy, Part, Code, CSubs, Subs, Probe;
    ProbeAt(t, x, 0);
    if i > 0 { NoSubHits(Probe(t), x, i, if i <= |x.negations| then D(x, i - 1) else 0, cache); }
  }

  lemma {:induction false} ProbeCollect(t: Tree, x: Tree, cache: Cache, m: nat)
    requires Tidy(t) && Part(x, t) && x.patterns >= 1 && m <= |x.negations| + x.patterns
    ensures var o := CSubs(Probe(t), x, AllHits(|x.captures|), [C(x)], cache);
            CCollect(Probe(t), x, RawsOf(x)[..m], cache) == Out(ListsAt(x, o.value, m), if m == 0 then cache else o.cache)
    decreases m
  {
    hide Tidy, Part, Code, CSubs, CProcess, Probe, ListsAt, C, D;
    var env, raws := Probe(t), RawsOf(x);
    var o := CSubs(env, x, AllHits(|x.captures|), [C(x)], cache);
    if m == 0 {
      NoListsAt(x, o.value);
    } else {
      ProbeCollect(t, x, cache, m - 1);
      assert raws[..m][..m - 1] == raws[..m - 1] && raws[m - 1] == RawOf(x, m - 1);
      ListsNext(x, o.value, m - 1);
      ProbeProcess(t, x, m - 1, if m == 1 then cache else o.cache);
    }
  }

  lemma NoListsAt(x: Tree, r: seq<Res>)
    requires x.patterns >= 1
    ensures NoLists(x.patterns) == ListsAt(x, r, 0)
  {}

  lemma {:induction false} PlainCollect(t: Tree, x: Tree, m: nat)
    requires Tidy(t) && Part(x, t) && x.patterns >= 1 && m <= |x.negations| + x.patterns
    ensures Collect(Probe(t), x, RawsOf(x)[..m]) == ListsAt(x, Subs(Probe(t), x, AllHits(|x.captures|), [C(x)]), m)
    decreases m
  {
    hide Tidy, Part, Code, Subs, Process, Probe, ListsAt, C, D;
    var env, raws := Probe(t), RawsOf(x);
    var r := Subs(env, x, AllHits(|x.captures|), [C(x)]);
    if m == 0 {
      NoListsAt(x, r);
    } else {
      PlainCollect(t, x, m - 1);
      assert raws[..m][..m - 1] == raws[..m - 1] && raws[m - 1] == RawOf(x, m - 1);
      ListsNext(x, r, m - 1);
      ProbeProcess(t, x, m - 1, map[]);
    }
  }

  lemma {:induction false} MergeZero(t: Tree, results: seq<Res>)
    requires Tidy(t)
    ensures Merge(Probe(t), results, [0], true) == results
  {
    hide Tidy, Code;
    if results != [] {
      var front, r := results[..|results| - 1], results[|results| - 1];
      MergeZero(t, front);
      assert [0][..0] == [];
      assert MergeWith(Probe(t), r, [0], true) == [] + [r];
    }
  }

  /** The lists of the other patterns change nothing. */
  lemma {:induction false} MergeProbe(t: Tree, lists: seq<seq<Res>>)
    requires Tidy(t) && |lists| >= 1 && lists[0] != [] && forall p :: 1 <= p < |lists| ==> lists[p] == [0]
    ensures MergeAll(Probe(t), lists) == lists[0]
    decreases |lists|
  {
    hide Tidy, Probe, Merge;
    var front := lists[..|lists| - 1];
    if |lists| == 1 {
      assert front == [];
    } else {
      MergeProbe(t, front);
      MergeZero(t, lists[0]);
    }
  }

  lemma AllLists(x: Tree, r: seq<Res>)
    requires x.patterns >= 1
    ensures var lists := ListsAt(x, r, |x.negations| + x.patterns);
            && lists[0] == r + Tests(x, |x.negations|) && (forall p :: 1 <= p < |lists| ==> lists[p] == [0])
            && ([] in lists <==> lists[0] == [])
  {
    hide Code;
    assert Min(|x.negations| + x.patterns - 1, |x.negations|) == |x.negations|;
  }

  /** Matching a query of the tree with the memo. */
  lemma ProbeMatch(t: Tree, x: Tree, cache: Cache)
    requires Tidy(t) && Part(x, t)
    ensures var o := CSubs(Probe(t), x, AllHits(|x.captures|), [C(x)], cache);
            CMatch(Probe(t), x, 0, cache) == CUnblocked(Probe(t), x, 0, o.value + Tests(x, |x.negations|), o.cache)
  {
    hide Tidy, Part, Code, CSubs, Probe, ListsAt, CCollect, CUnblocked, MergeAll;
    var env := Probe(t);
    ProbeAt(t, x, 0);
    var n, o := |x.negations| + x.patterns, CSubs(env, x, AllHits(|x.captures|), [C(x)], cache);
    ProbeCollect(t, x, cache, n);
    assert RawsOf(x)[..n] == RawsOf(x);
    AllLists(x, o.value);
    var lists := ListsAt(x, o.value, n);
    if lists[0] == [] { NoneUnblocked(env, x, o.cache); } else { MergeProbe(t, lists); }
  }

  lemma NoneUnblocked(env: Env, x: Tree, cache: Cache)
    ensures CUnblocked(env, x, 0, [], cache) == Out([], cache) && Unblocked(env, x, 0, []) == []
  {}

  lemma PlainMatch(t: Tree, x: Tree)
    requires Tidy(t) && Part(x, t)
    ensures Match(Probe(t), x, 0) == Unblocked(Probe(t), x, 0, Subs(Probe(t), x, AllHits(|x.captures|), [C(x)]) + Tests(x, |x.negations|))
  {
    hide Tidy, Part, Code, Subs, Probe, ListsAt, Collect, Unblocked, MergeAll;
    var env := Probe(t);
    ProbeAt(t, x, 0);
    var n, r := |x.negations| + x.patterns, Subs(env, x, AllHits(|x.captures|), [C(x)]);
    PlainCollect(t, x, n);
    assert RawsOf(x)[..n] == RawsOf(x);
    AllLists(x, r);
    var lists := ListsAt(x, r, n);
    if lists[0] == [] { NoneUnblocked(env, x, map[]); } else { MergeProbe(t, lists); }
  }

  // ----- without the memo every query gives its own result

  lemma MergeOne(t: Tree, x: Tree, e: Res)
    requires Tidy(t) && Part(x, t)
    ensures Merge(Probe(t), [C(x)], [e], false) == [MergeFor(t, C(x), e, false)]
  {
    hide Tidy, Part, Code;
    assert [C(x)][..0] == [] && [e][..0] == [];
    assert Merge(Probe(t), [], [e], false) == [];
    assert MergeWith(Probe(t), C(x), [e], false) == [] + [MergeFor(t, C(x), e, false)];
  }

  lemma KidKept(t: Tree, x: Tree, i: nat)
    requires Tidy(t) && Part(x, t) && i < |x.captures| && x.captures[i].Sub?
    ensures MergeFor(t, C(x), C(x.captures[i].tree), false) == C(x)
  {
    hide Tidy, Part, Code, MergeFor;
    TagOfCode(MainOf(x.captures[i].tree));
    MergeAt(t, x, C(x.captures[i].tree));
  }

  lemma {:induction false} PlainValue(t: Tree, x: Tree)
    requires Tidy(t) && Part(x, t)
    ensures Match(Probe(t), x, 0) == [C(x)]
    decreases x, 2, 0
  {
    hide Tidy, Part, Code, Probe, Match, Subs, Unblocked;
    var n := |x.captures|;
    PlainSubs(t, x, n);
    assert AllHits(n)[..n] == AllHits(n);
    PlainMatch(t, x);
    PlainUnblocked(t, x, |x.negations|);
  }

  lemma {:induction false} PlainSubs(t: Tree, x: Tree, m: nat)
    requires Tidy(t) && Part(x, t) && m <= |x.captures|
    ensures Subs(Probe(t), x, AllHits(|x.captures|)[..m], [C(x)]) == [C(x)]
    decreases x, 1, m
  {
    hide Tidy, Part, Code, Probe, Match, Merge, MergeFor;
    if m > 0 {
      var hits := AllHits(|x.captures|);
      assert hits[..m][..m - 1] == hits[..m - 1] && hits[..m][m - 1] == Hit(m - 1, 0);
      PlainSubs(t, x, m - 1);
      if x.captures[m - 1].Sub? {
        var kid := x.captures[m - 1].tree;
        assert IsKid(x, kid);
        KidIsPart(x, kid, t);
        PlainValue(t, kid);
        KidKept(t, x, m - 1);
        MergeOne(t, x, C(kid));
      }
    }
  }

  lemma BlocksAt(t: Tree, id: int, after: int, ns: seq<Res>, r: Tag)
    requires Tidy(t)
    ensures AnyBlocks(Probe(t), id, after, ns, Code(r)) <==> exists i :: 0 <= i < |ns| && Stops(t, TagOf(ns[i]), r)
  {
    hide Tidy, Code, TagOf, Stops;
    TagOfCode(r);
    forall i | 0 <= i < |ns| ensures Blocks(Probe(t), id, after, ns[i], Code(r)) <==> Stops(t, TagOf(ns[i]), r) {}
    hide Probe, Blocks;
    if i :| 0 <= i < |ns| && Stops(t, TagOf(ns[i]), r) { assert Blocks(Probe(t), id, after, ns[i], Code(r)); }
  }

  /** Every negation gives its result, which rules out nothing but its test. */
  lemma PlainBlocks(t: Tree, x: Tree, j: nat, k: nat)
    requires Tidy(t) && Part(x, t) && j < |x.negations| && k < |x.negations|
    requires Match(Probe(t), x.negations[j].tree, 0) == [C(x.negations[j].tree)]
    ensures var ns, after := Match(Probe(t), x.negations[j].tree, 0), x.negations[j].after;
            !AnyBlocks(Probe(t), x.id, after, ns, C(x)) && (j == k ==> AnyBlocks(Probe(t), x.id, after, ns, D(x, k)))
  {
    hide Tidy, Part, Code, Probe, Match, AnyBlocks, Stops;
    var neg := x.negations[j].tree;
    TagOfCode(MainOf(neg));
    BlocksAt(t, x.id, x.negations[j].after, [C(neg)], MainOf(x));
    BlocksAt(t, x.id, x.negations[j].after, [C(neg)], Test(x.query, x.id, k));
    StopsAt(t, x, MainOf(neg), k);
    assert [C(neg)][0] == C(neg);
  }

  lemma {:induction false} PlainBlocked(t: Tree, x: Tree, j: nat, k: nat)
    requires Tidy(t) && Part(x, t) && j <= |x.negations|
    ensures !Blocked(Probe(t), x, 0, C(x), j) && (j <= k < |x.negations| ==> Blocked(Probe(t), x, 0, D(x, k), j))
    decreases x, 0, |x.negations| - j
  {
    hide Tidy, Part, Code, Probe, Match, AnyBlocks;
    if j < |x.negations| {
      var neg := x.negations[j].tree;
      assert IsKid(x, neg);
      KidIsPart(x, neg, t);
      PlainValue(t, neg);
      PlainBlocks(t, x, j, j);
      PlainBlocked(t, x, j + 1, k);
    }
  }

  lemma {:induction false} PlainUnblocked(t: Tree, x: Tree, m: nat)
    requires Tidy(t) && Part(x, t) && m <= |x.negations|
    ensures Unblocked(Probe(t), x, 0, [C(x)] + Tests(x, m)) == [C(x)]
    decreases x, 1, m
  {
    hide Tidy, Part, Code, Probe, Blocked;
    var results := [C(x)] + Tests(x, m);
    PlainBlocked(t, x, 0, m - if m > 0 then 1 else 0);
    if m == 0 {
      assert results[..0] == [] && results == [C(x)];
      NoneUnblocked(Probe(t), x, map[]);
    } else {
      assert results[..m] == [C(x)] + Tests(x, m - 1) && results[m] == D(x, m - 1);
      PlainUnblocked(t, x, m - 1);
    }
  }

  // ----- what the memo holds

  /** The results are those of x, and nothing else. */
  ghost predicate Pure(list: seq<Res>, x: Tree) {
    list != [] && forall e :: e in list ==> e == C(x)
  }

  ghost predicate Held(cache: Cache, x: Tree) {
    Key(x.id, 0) in cache && Pure(cache[Key(x.id, 0)], x)
  }

  /** The memo has the right results for every captured sub-query in x. */
  ghost predicate Covered(cache: Cache, x: Tree)
    decreases x, 1
  {
    && (forall i :: 0 <= i < |x.captures| ==> CoveredCapture(cache, x.captures[i]))
    && (forall i :: 0 <= i < |x.negations| ==> Covered(cache, x.negations[i].tree))
  }

  ghost predicate CoveredCapture(cache: Cache, c: Capture)
    decreases c, 0
  {
    c.Sub? ==> Held(cache, c.tree) && Covered(cache, c.tree)
  }

  lemma {:induction false} CoveredMore(cache: Cache, later: Cache, x: Tree)
    requires Covered(cache, x) && Within(cache, later)
    ensures Covered(later, x)
    decreases x, 1
  {
    hide Within, Held;
    forall i | 0 <= i < |x.captures| ensures CoveredCapture(later, x.captures[i]) {
      assert CoveredCapture(cache, x.captures[i]);
      CaptureMore(cache, later, x.captures[i]);
    }
    forall i | 0 <= i < |x.negations| ensures Covered(later, x.negations[i].tree) { CoveredMore(cache, later, x.negations[i].tree); }
  }

  lemma {:induction false} CaptureMore(cache: Cache, later: Cache, c: Capture)
    requires CoveredCapture(cache, c) && Within(cache, later)
    ensures CoveredCapture(later, c)
    decreases c, 0
  {
    if c.Sub? {
      assert Held(later, c.tree);
      hide Held, Within;
      CoveredMore(cache, later, c.tree);
    }
  }

  predicate TagFits(id: int, tag: Tag) {
    tag == Lost || tag.id == id
  }

  /** Results under an id are results of queries with that id, and a query whose results are there is covered. */
  ghost predicate Sane(t: Tree, cache: Cache) {
    && (forall k, e :: k in cache && e in cache[k] ==> TagFits(k.id, TagOf(e)))
    && (forall x :: Part(x, t) && Held(cache, x) ==> Covered(cache, x))
  }

  predicate OwnTag(x: Tree, tag: Tag) {
    tag == MainOf(x) || tag == Lost || (tag.Test? && tag.query == x.query && tag.id == x.id)
  }

  ghost predicate Own(list: seq<Res>, x: Tree) {
    forall e :: e in list ==> OwnTag(x, TagOf(e))
  }

  lemma TagKnown(r: Res)
    ensures TagOf(r) != Lost ==> Code(TagOf(r)) == r
  {
    hide Code;
  }

  /** Keeping the results of K, a query of the tree, keeps the memo sane. */
  lemma SaneMore(t: Tree, cache: Cache, kid: Tree, value: seq<Res>)
    requires Tidy(t) && Part(kid, t) && Sane(t, cache) && Key(kid.id, 0) !in cache && Own(value, kid) && (Pure(value, kid) ==> Covered(cache, kid))
    ensures Sane(t, cache[Key(kid.id, 0) := value])
  {
    hide Part, Code, Covered, TagOf;
    var key := Key(kid.id, 0);
    var after := cache[key := value];
    assert Within(cache, after);
    forall x | Part(x, t) && Held(after, x) ensures Covered(after, x) {
      if x.id == kid.id {
        assert value[0] in value && TagOf(value[0]) == MainOf(x) by { TagOfCode(MainOf(x)); }
        assert x == kid by { assert SameShape(x, kid); }
        CoveredMore(cache, after, kid);
      } else {
        assert Held(cache, x);
        CoveredMore(cache, after, x);
      }
    }
  }

  // ----- merging

  lemma {:induction false} MergeWithHas(t: Tree, r: Res, subs: seq<Res>, e: Res)
    requires Tidy(t)
    ensures e in MergeWith(Probe(t), r, subs, false) <==> exists y :: y in subs && e == MergeFor(t, r, y, false)
  {
    hide Tidy, MergeFor;
    if subs != [] {
      var front, last := subs[..|subs| - 1], subs[|subs| - 1];
      assert subs == front + [last];
      MergeWithHas(t, r, front, e);
      assert MergeWith(Probe(t), r, subs, false) == MergeWith(Probe(t), r, front, false) + [MergeFor(t, r, last, false)];
    }
  }

  lemma {:induction false} MergeHas(t: Tree, results: seq<Res>, subs: seq<Res>, e: Res)
    requires Tidy(t)
    ensures e in Merge(Probe(t), results, subs, false) <==> exists r, y :: r in results && y in subs && e == MergeFor(t, r, y, false)
  {
    hide Tidy, MergeFor, Probe, MergeWith;
    if results != [] {
      var front, last := results[..|results| - 1], results[|results| - 1];
      assert results == front + [last];
      MergeHas(t, front, subs, e);
      MergeWithHas(t, last, subs, e);
      assert Merge(Probe(t), results, subs, false) == Merge(Probe(t), front, subs, false) + MergeWith(Probe(t), last, subs, false);
    }
  }

  ghost predicate OnlyMain(list: seq<Res>, x: Tree) {
    forall e :: e in list ==> e == C(x) || e == Code(Lost)
  }

  /** Merging gives the results of x, or lost ones; only the results of x only if both sides were as they should be. */
  lemma MergePure(t: Tree, x: Tree, i: nat, results: seq<Res>, subs: seq<Res>)
    requires Tidy(t) && Part(x, t) && i < |x.captures| && x.captures[i].Sub? && OnlyMain(results, x)
    requires forall y :: y in subs ==> TagFits(x.captures[i].tree.id, TagOf(y))
    ensures OnlyMain(Merge(Probe(t), results, subs, false), x)
    ensures Pure(Merge(Probe(t), results, subs, false), x) ==> Pure(results, x) && Pure(subs, x.captures[i].tree)
  {
    hide Tidy, Part, Code, MergeFor, Merge, Probe, TagOf;
    var all := Merge(Probe(t), results, subs, false);
    forall e | e in all ensures e == C(x) || e == Code(Lost) {
      MergeHas(t, results, subs, e);
      var r, y :| r in results && y in subs && e == MergeFor(t, r, y, false);
      MergeAt(t, x, y);
    }
    if Pure(all, x) {
      MergeHas(t, results, subs, all[0]);
      assert all[0] in all;
      var r0, y0 :| r0 in results && y0 in subs && all[0] == MergeFor(t, r0, y0, false);
      forall r, y | r in results && y in subs ensures r == C(x) && y == C(x.captures[i].tree) {
        MergeHas(t, results, subs, MergeFor(t, r, y, false));
        assert MergeFor(t, r, y, false) == C(x);
        KeptIsKid(t, x, i, r, y);
      }
    }
  }

  lemma KeptIsKid(t: Tree, x: Tree, i: nat, r: Res, y: Res)
    requires Tidy(t) && Part(x, t) && i < |x.captures| && x.captures[i].Sub? && (r == C(x) || r == Code(Lost))
    requires TagFits(x.captures[i].tree.id, TagOf(y)) && MergeFor(t, r, y, false) == C(x)
    ensures r == C(x) && y == C(x.captures[i].tree)
  {
    hide Part, Code, MergeFor, TagOf;
    if C(x) == Code(Lost) { CodeOnce(MainOf(x), Lost); }
    MergeAt(t, x, y);
    var j :| 0 <= j < |x.captures| && x.captures[j].Sub? && TagOf(y) == MainOf(x.captures[j].tree);
    assert KidsApart(x);
    assert SameId(x.captures[j], x.captures[i]);
    TagKnown(y);
  }

  // ----- with the memo, only right answers give the right result

  /** What matching x does: the memo stays sane, and if x gives its own result alone, the memo has been right throughout. */
  ghost predicate Noticed(t: Tree, x: Tree, o: Out<seq<Res>>) {
    Sane(t, o.cache) && Own(o.value, x) && (Pure(o.value, x) ==> Covered(o.cache, x))
  }

  lemma {:induction false} Detect(t: Tree, x: Tree, cache: Cache)
    requires Tidy(t) && Part(x, t) && Sane(t, cache)
    ensures Noticed(t, x, CMatch(Probe(t), x, 0, cache))
    decreases x, 3, 0
  {
    hide Tidy, Part, Code, Probe, CSubs, CUnblocked, Sane, TagOf;
    var env, n := Probe(t), |x.captures|;
    var o := CSubs(env, x, AllHits(n), [C(x)], cache);
    DetectSubs(t, x, n, cache);
    assert AllHits(n)[..n] == AllHits(n);
    DetectTests(t, x, o.value, |x.negations|, o.cache);
    ProbeMatch(t, x, cache);
    ProbeAt(t, x, 0);
    UnblockedGrows(env, x, 0, o.value + Tests(x, |x.negations|), o.cache);
    var after := CMatch(env, x, 0, cache);
    hide CMatch;
    if Pure(after.value, x) { PureCovers(t, x, o, after); }
  }

  /** From the parts to the whole. */
  lemma PureCovers(t: Tree, x: Tree, o: Out<seq<Res>>, after: Out<seq<Res>>)
    requires OnlyMain(o.value, x) && Within(o.cache, after.cache) && Pure(after.value, x)
    requires Pure(o.value, x) ==> forall i :: 0 <= i < |x.captures| ==> CoveredCapture(o.cache, x.captures[i])
    requires TestsDone(t, x, o.value, |x.negations|, after)
    ensures Covered(after.cache, x)
  {
    hide Code, Covered;
    var first := after.value[0];
    assert first in after.value && first == C(x);
    if C(x) == Code(Lost) { CodeOnce(MainOf(x), Lost); }
    forall k ensures D(x, k) != C(x) { if D(x, k) == C(x) { CodeOnce(MainOf(x), Test(x.query, x.id, k)); } }
    assert C(x) in after.value && Code(Lost) !in after.value;
    assert Pure(o.value, x);
    forall i | 0 <= i < |x.captures| ensures CoveredCapture(after.cache, x.captures[i]) { CaptureMore(o.cache, after.cache, x.captures[i]); }
    assert forall k :: 0 <= k < |x.negations| ==> Covered(after.cache, x.negations[k].tree);
    CoveredAll(after.cache, x);
  }

  lemma CoveredAll(cache: Cache, x: Tree)
    requires forall i :: 0 <= i < |x.captures| ==> CoveredCapture(cache, x.captures[i])
    requires forall i :: 0 <= i < |x.negations| ==> Covered(cache, x.negations[i].tree)
    ensures Covered(cache, x)
  {}

  lemma {:induction false} DetectSubs(t: Tree, x: Tree, m: nat, cache: Cache)
    requires Tidy(t) && Part(x, t) && Sane(t, cache) && m <= |x.captures|
    ensures var o := CSubs(Probe(t), x, AllHits(|x.captures|)[..m], [C(x)], cache);
            && Sane(t, o.cache) && OnlyMain(o.value, x)
            && (Pure(o.value, x) ==> forall i :: 0 <= i < m ==> CoveredCapture(o.cache, x.captures[i]))
    decreases x, 1, m
  {
    hide Tidy, Part, Code, Probe, CMatch, Merge, Sane, TagOf, CoveredCapture;
    if m > 0 {
      var env, hits := Probe(t), AllHits(|x.captures|);
      assert hits[..m][..m - 1] == hits[..m - 1] && hits[..m][m - 1] == Hit(m - 1, 0);
      DetectSubs(t, x, m - 1, cache);
      var before := CSubs(env, x, hits[..m - 1], [C(x)], cache);
      if !x.captures[m - 1].Sub? || before.value == [] {
        NotSub(before.cache, x.captures[m - 1]);
      } else {
        var kid := x.captures[m - 1].tree;
        assert IsKid(x, kid);
        KidIsPart(x, kid, t);
        if Key(kid.id, 0) in before.cache { Recall(t, x, m - 1, before); } else {
          Detect(t, kid, before.cache);
          Remember(t, x, m - 1, before);
          var o := CMatch(env, kid, 0, before.cache);
          var after := o.cache[Key(kid.id, 0) := o.value];
          if Pure(before.value, x) {
            forall i | 0 <= i < m - 1 ensures CoveredCapture(after, x.captures[i]) { CaptureMore(before.cache, after, x.captures[i]); }
          }
        }
      }
    }
  }

  lemma NotSub(cache: Cache, c: Capture)
    ensures !c.Sub? ==> CoveredCapture(cache, c)
  {}

  /** A sub-query whose results are taken from the memo. */
  lemma Recall(t: Tree, x: Tree, i: nat, before: Out<seq<Res>>)
    requires Tidy(t) && Part(x, t) && i < |x.captures| && x.captures[i].Sub? && Part(x.captures[i].tree, t)
    requires Sane(t, before.cache) && OnlyMain(before.value, x) && Key(x.captures[i].tree.id, 0) in before.cache
    ensures var value := Merge(Probe(t), before.value, before.cache[Key(x.captures[i].tree.id, 0)], false);
            OnlyMain(value, x) && (Pure(value, x) ==> Pure(before.value, x) && CoveredCapture(before.cache, x.captures[i]))
  {
    hide Tidy, Part, Code, Probe, Merge, TagOf, Covered;
    MergePure(t, x, i, before.value, before.cache[Key(x.captures[i].tree.id, 0)]);
  }

  /** A sub-query that is run. */
  lemma Remember(t: Tree, x: Tree, i: nat, before: Out<seq<Res>>)
    requires Tidy(t) && Part(x, t) && i < |x.captures| && x.captures[i].Sub? && Part(x.captures[i].tree, t)
    requires Sane(t, before.cache) && OnlyMain(before.value, x) && Key(x.captures[i].tree.id, 0) !in before.cache
    requires Noticed(t, x.captures[i].tree, CMatch(Probe(t), x.captures[i].tree, 0, before.cache))
    ensures var kid := x.captures[i].tree;
            var o := CMatch(Probe(t), kid, 0, before.cache);
            var value, after := Merge(Probe(t), before.value, o.value, false), o.cache[Key(kid.id, 0) := o.value];
            && Sane(t, after) && Within(before.cache, after) && OnlyMain(value, x)
            && (Pure(value, x) ==> Pure(before.value, x) && CoveredCapture(after, x.captures[i]))
  {
    hide Tidy, Part, Code, Probe, Merge, TagOf, Covered, CMatch, Sane;
    var kid := x.captures[i].tree;
    var o := CMatch(Probe(t), kid, 0, before.cache);
    ProbeAt(t, kid, 0);
    MatchGrows(Probe(t), kid, 0, before.cache);
    SaneMore(t, o.cache, kid, o.value);
    MergePure(t, x, i, before.value, o.value);
    if Pure(o.value, kid) { CoveredMore(o.cache, o.cache[Key(kid.id, 0) := o.value], kid); }
  }

  // ----- negations

  /** Matched again, the i-th negation of x adds nothing to the memo and gives nothing but its own result; if it gives that, the memo has been right in it. */
  ghost predicate VettedAt(t: Tree, x: Tree, i: nat, cache: Cache)
    requires Tidy(t) && i < |x.negations|
  {
    var neg := x.negations[i].tree;
    var o := CMatch(Probe(t), neg, 0, cache);
    && o.cache == cache && (forall e :: e in o.value ==> e == C(neg)) && (o.value != [] ==> Covered(cache, neg))
  }

  ghost predicate Vetted(t: Tree, x: Tree, from: nat, cache: Cache)
    requires Tidy(t)
  {
    forall i :: from <= i < |x.negations| ==> VettedAt(t, x, i, cache)
  }

  lemma {:induction false} DetectBlocked(t: Tree, x: Tree, r: Tag, j: nat, cache: Cache)
    requires Tidy(t) && Part(x, t) && Sane(t, cache) && j <= |x.negations|
    ensures var o := CBlocked(Probe(t), x, 0, Code(r), j, cache);
            Sane(t, o.cache) && (r == MainOf(x) && !o.value ==> Vetted(t, x, j, o.cache)) && (r == Lost ==> !o.value)
    decreases x, 1, |x.negations| - j
  {
    hide Tidy, Part, Code, Probe, CMatch, Sane, TagOf, AnyBlocks, VettedAt;
    if j < |x.negations| {
      var env, neg := Probe(t), x.negations[j].tree;
      assert IsKid(x, neg);
      KidIsPart(x, neg, t);
      Detect(t, neg, cache);
      var o := CMatch(env, neg, 0, cache);
      BlocksAt(t, x.id, x.negations[j].after, o.value, r);
      if !AnyBlocks(env, x.id, x.negations[j].after, o.value, Code(r)) {
        DetectBlocked(t, x, r, j + 1, o.cache);
        ProbeAt(t, x, 0);
        BlockedGrows(env, x, 0, Code(r), j + 1, o.cache);
        if r == MainOf(x) { Vet(t, x, j, cache, CBlocked(env, x, 0, Code(r), j + 1, o.cache).cache); }
      }
    }
  }

  /** A negation that does not rule out the result of x is vetted from then on. */
  lemma Vet(t: Tree, x: Tree, j: nat, cache: Cache, later: Cache)
    requires Tidy(t) && Part(x, t) && j < |x.negations| && Part(x.negations[j].tree, t)
    requires var o := CMatch(Probe(t), x.negations[j].tree, 0, cache);
             Noticed(t, x.negations[j].tree, o) && Within(o.cache, later) && forall i :: 0 <= i < |o.value| ==> !Stops(t, TagOf(o.value[i]), MainOf(x))
    ensures VettedAt(t, x, j, later)
  {
    hide Tidy, Part, Code, Probe, CMatch, Sane, TagOf, Stops, Covered;
    var neg := x.negations[j].tree;
    var o := CMatch(Probe(t), neg, 0, cache);
    ProbeAt(t, neg, 0);
    MatchAgain(Probe(t), neg, 0, cache, later);
    forall i | 0 <= i < |o.value| ensures o.value[i] == C(neg) {
      assert o.value[i] in o.value;
      StopsAt(t, x, TagOf(o.value[i]), 0);
      TagKnown(o.value[i]);
    }
    if o.value != [] { CoveredMore(o.cache, later, neg); }
  }

  /** Once vetted, negations leave the memo as it is, and a test that is ruled out has a negation that is covered. */
  lemma {:induction false} TestBlocked(t: Tree, x: Tree, r: Tag, j: nat, cache: Cache)
    requires Tidy(t) && Part(x, t) && j <= |x.negations| && Vetted(t, x, j, cache)
    ensures var o := CBlocked(Probe(t), x, 0, Code(r), j, cache);
            && o.cache == cache
            && (o.value && r.Test? && r.query == x.query && r.id == x.id ==> 0 <= r.k < |x.negations| && Covered(cache, x.negations[r.k].tree))
    decreases |x.negations| - j
  {
    hide Tidy, Part, Code, Probe, CMatch, TagOf, AnyBlocks, Stops, Covered;
    if j < |x.negations| {
      var env, neg := Probe(t), x.negations[j].tree;
      assert VettedAt(t, x, j, cache);
      var o := CMatch(env, neg, 0, cache);
      BlocksAt(t, x.id, x.negations[j].after, o.value, r);
      if AnyBlocks(env, x.id, x.negations[j].after, o.value, Code(r)) {
        if r.Test? && r.query == x.query && r.id == x.id {
          var i :| 0 <= i < |o.value| && Stops(t, TagOf(o.value[i]), r);
          assert o.value[i] in o.value;
          TagOfCode(MainOf(neg));
          StopsAt(t, x, TagOf(o.value[i]), r.k);
          SameNegation(t, x, j, r.k);
        }
      } else {
        TestBlocked(t, x, r, j + 1, cache);
      }
    }
  }

  lemma SameNegation(t: Tree, x: Tree, i: nat, k: int)
    requires Tidy(t) && Part(x, t) && i < |x.negations| && 0 <= k < |x.negations| && MainOf(x.negations[i].tree) == MainOf(x.negations[k].tree)
    ensures i == k
  {
    hide Part;
    assert KidsApart(x);
  }

  /** The results of x and of its sub-queries, filtered. */
  ghost predicate MainsDone(t: Tree, x: Tree, results: seq<Res>, o: Out<seq<Res>>)
    requires Tidy(t)
  {
    && Sane(t, o.cache) && (forall e :: e in o.value ==> e in results)
    && (Code(Lost) in results ==> Code(Lost) in o.value) && (C(x) in o.value ==> Vetted(t, x, 0, o.cache))
  }

  lemma {:induction false} DetectMains(t: Tree, x: Tree, results: seq<Res>, cache: Cache)
    requires Tidy(t) && Part(x, t) && Sane(t, cache) && OnlyMain(results, x)
    ensures MainsDone(t, x, results, CUnblocked(Probe(t), x, 0, results, cache))
    decreases x, 2, |results|
  {
    hide Tidy, Part, Code, Probe, Sane, CBlocked, Vetted;
    if results != [] {
      var front, last := results[..|results| - 1], results[|results| - 1];
      assert results == front + [last] && last in results;
      forall e | e in front ensures e in results {}
      DetectMains(t, x, front, cache);
      var o := CUnblocked(Probe(t), x, 0, front, cache);
      var r := if last == C(x) then MainOf(x) else Lost;
      assert Code(r) == last;
      if C(x) == Code(Lost) { CodeOnce(MainOf(x), Lost); }
      DetectBlocked(t, x, r, 0, o.cache);
      if C(x) in o.value { TestBlocked(t, x, r, 0, o.cache); }
    }
  }

  ghost predicate TestsDone(t: Tree, x: Tree, results: seq<Res>, m: nat, o: Out<seq<Res>>)
    requires m <= |x.negations|
  {
    && Sane(t, o.cache) && Own(o.value, x)
    && (forall e :: e in o.value ==> e in results || exists k :: 0 <= k < m && e == D(x, k))
    && (Code(Lost) in results ==> Code(Lost) in o.value)
    && (C(x) in o.value ==> forall k :: 0 <= k < m ==> D(x, k) in o.value || Covered(o.cache, x.negations[k].tree))
  }

  lemma {:induction false} DetectTests(t: Tree, x: Tree, results: seq<Res>, m: nat, cache: Cache)
    requires Tidy(t) && Part(x, t) && Sane(t, cache) && OnlyMain(results, x) && m <= |x.negations|
    ensures var o := CUnblocked(Probe(t), x, 0, results + Tests(x, m), cache);
            TestsDone(t, x, results, m, o) && (C(x) in o.value ==> Vetted(t, x, 0, o.cache))
    decreases x, 2, |results| + m + 1
  {
    hide Tidy, Part, Code, Probe, Sane, CBlocked, Vetted, TagOf;
    var all := results + Tests(x, m);
    if m == 0 {
      assert all == results;
      DetectMains(t, x, results, cache);
      OwnMains(t, x, results, CUnblocked(Probe(t), x, 0, results, cache));
    } else {
      assert all[..|all| - 1] == results + Tests(x, m - 1) && all[|all| - 1] == D(x, m - 1);
      DetectTests(t, x, results, m - 1, cache);
      var o := CUnblocked(Probe(t), x, 0, results + Tests(x, m - 1), cache);
      var r := Test(x.query, x.id, m - 1);
      DetectBlocked(t, x, r, 0, o.cache);
      if C(x) in o.value { TestBlocked(t, x, r, 0, o.cache); }
      var b := CBlocked(Probe(t), x, 0, D(x, m - 1), 0, o.cache);
      hide TestsDone, CUnblocked;
      NextTest(t, x, results, m, o, b);
    }
  }

  lemma NextTest(t: Tree, x: Tree, results: seq<Res>, m: nat, o: Out<seq<Res>>, b: Out<bool>)
    requires 0 < m <= |x.negations| && OnlyMain(results, x) && TestsDone(t, x, results, m - 1, o) && Sane(t, b.cache)
    requires C(x) in o.value ==> b.cache == o.cache && (b.value ==> Covered(o.cache, x.negations[m - 1].tree))
    ensures TestsDone(t, x, results, m, Out(o.value + if b.value then [] else [D(x, m - 1)], b.cache))
    ensures C(x) in o.value + (if b.value then [] else [D(x, m - 1)]) ==> C(x) in o.value
  {
    hide Code, TagOf, Sane, Covered;
    var r := Test(x.query, x.id, m - 1);
    TagOfCode(r);
    if C(x) == Code(r) { CodeOnce(MainOf(x), r); }
  }

  lemma OwnMains(t: Tree, x: Tree, results: seq<Res>, o: Out<seq<Res>>)
    requires OnlyMain(results, x) && forall e :: e in o.value ==> e in results
    ensures Own(o.value, x)
  {
    hide Code, TagOf;
    TagOfCode(MainOf(x));
    TagOfCode(Lost);
  }

  // ----- the verdict

  lemma {:induction false} CapturedHeld(t: Tree, x: Tree, cache: Cache, y: Tree)
    requires Part(x, t) && Covered(cache, x) && y in Captured(x)
    ensures Part(y, t) && Held(cache, y)
    decreases x, 1, 0
  {
    hide Part, Held;
    if y in FromCaptures(x, |x.captures|) { CaptureHeld(t, x, cache, |x.captures|, y); } else { NegationHeld(t, x, cache, |x.negations|, y); }
  }

  lemma {:induction false} CaptureHeld(t: Tree, x: Tree, cache: Cache, n: nat, y: Tree)
    requires Part(x, t) && Covered(cache, x) && n <= |x.captures| && y in FromCaptures(x, n)
    ensures Part(y, t) && Held(cache, y)
    decreases x, 0, n
  {
    hide Part, Held;
    if y in FromCaptures(x, n - 1) {
      CaptureHeld(t, x, cache, n - 1, y);
    } else {
      var kid := x.captures[n - 1].tree;
      assert IsKid(x, kid);
      KidIsPart(x, kid, t);
      assert CoveredCapture(cache, x.captures[n - 1]);
      if y != kid { CapturedHeld(t, kid, cache, y); }
    }
  }

  lemma {:induction false} NegationHeld(t: Tree, x: Tree, cache: Cache, n: nat, y: Tree)
    requires Part(x, t) && Covered(cache, x) && n <= |x.negations| && y in FromNegations(x, n)
    ensures Part(y, t) && Held(cache, y)
    decreases x, 0, n
  {
    hide Part, Held;
    if y in FromNegations(x, n - 1) {
      NegationHeld(t, x, cache, n - 1, y);
    } else {
      var neg := x.negations[n - 1].tree;
      assert IsKid(x, neg);
      KidIsPart(x, neg, t);
      CapturedHeld(t, neg, cache, y);
    }
  }

  lemma HeldOnce(t: Tree, cache: Cache, x: Tree, y: Tree)
    requires Tidy(t) && Part(x, t) && Part(y, t) && Held(cache, x) && Held(cache, y) && x.id == y.id
    ensures x == y
  {
    hide Part, Code;
    var e := cache[Key(x.id, 0)][0];
    assert e in cache[Key(x.id, 0)] && e == C(x) && e == C(y);
    CodeOnce(MainOf(x), MainOf(y));
    assert SameShape(x, y);
  }

  lemma SaneEmpty(t: Tree)
    ensures Sane(t, map[])
  {}

  /** If the memo makes no difference in this environment, no two different sub-queries share an id. */
  lemma ProbeDecides(t: Tree)
    requires Tidy(t) && CMatch(Probe(t), t, 0, map[]).value == Match(Probe(t), t, 0)
    ensures Consistent(Captured(t))
  {
    assert Part(t, t);
    hide Tidy, Part, Code, Probe, CMatch, Match, Sane, Captured, Held;
    PlainValue(t, t);
    SaneEmpty(t);
    Detect(t, t, map[]);
    var o := CMatch(Probe(t), t, 0, map[]);
    assert Pure(o.value, t);
    var ts := Captured(t);
    forall i, j | 0 <= i < j < |ts| && ts[i].id == ts[j].id ensures ts[i] == ts[j] {
      CapturedHeld(t, t, o.cache, ts[i]);
      CapturedHeld(t, t, o.cache, ts[j]);
      HeldOnce(t, o.cache, ts[i], ts[j]);
    }
  }
}
