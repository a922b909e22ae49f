/**
 Query ids. A builder counts its sub-queries and negations up from its own id and builds each with a
 copy of the count that is not handed back. So the id of a sub-query is the sum of the positions on
 the way to it, and ids of different sub-queries can collide.
 */
module QueryIds {
  import opened QueryMatch

  /** What a query is built from: sub-queries, negations and captures of other kinds, in the order of building. */
  datatype Source = Source(query: int, patterns: nat, kids: seq<Kid>)

  datatype Kid = SubQuery(source: Source) | Not(source: Source, after: int) | Other

  /** How many of the first n take an id. */
  function Count(s: Source, n: nat): nat
    requires n <= |s.kids|
  {
    if n == 0 then 0 else Count(s, n - 1) + if s.kids[n - 1].Other? then 0 else 1
  }

  /** The tree that a builder with this id makes. */
  function Build(s: Source, id: int): Tree
    decreases s, 1, 0
  {
    Tree(s.query, s.patterns, Captures(s, id, |s.kids|), Negations(s, id, |s.kids|), id)
  }

  function Captures(s: Source, id: int, n: nat): seq<Capture>
    requires n <= |s.kids|
    decreases s, 0, n
  {
    if n == 0 then []
    else match s.kids[n - 1]
      case SubQuery(c) => Captures(s, id, n - 1) + [Sub(Build(c, id + Count(s, n)))]
      case Not(_, _) => Captures(s, id, n - 1)
      case Other => Captures(s, id, n - 1) + [Plain]
  }

  function Negations(s: Source, id: int, n: nat): seq<Negation>
    requires n <= |s.kids|
    decreases s, 0, n
  {
    if n == 0 then []
    else match s.kids[n - 1]
      case Not(c, after) => Negations(s, id, n - 1) + [Negation(Build(c, id + Count(s, n)), after)]
      case _ => Negations(s, id, n - 1)
  }

  // ----- the way to a sub-query

  type Path = seq<int>

  predicate HasKid(s: Source, k: int) {
    0 <= k < |s.kids| && !s.kids[k].Other?
  }

  predicate IsPath(s: Source, p: Path)
    decreases |p|
  {
    p == [] || (HasKid(s, p[0]) && IsPath(s.kids[p[0]].source, p[1..]))
  }

  function At(s: Source, p: Path): Source
    requires IsPath(s, p)
    decreases |p|
  {
    if p == [] then s else At(s.kids[p[0]].source, p[1..])
  }

  /** The id of the sub-query at p, when the root has id 0: the sum of the positions. */
  function Id(s: Source, p: Path): nat
    requires IsPath(s, p)
    decreases |p|
  {
    if p == [] then 0 else Count(s, p[0] + 1) + Id(s.kids[p[0]].source, p[1..])
  }

  /** The sub-query at p is captured, so its results are memoised under its id. */
  predicate IsKey(s: Source, p: Path) {
    IsPath(s, p) && p != [] && IsPath(s, p[..|p| - 1]) && HasKid(At(s, p[..|p| - 1]), p[|p| - 1])
    && At(s, p[..|p| - 1]).kids[p[|p| - 1]].SubQuery?
  }

  lemma {:induction false} CountGrows(s: Source, m: nat, n: nat)
    requires m <= n <= |s.kids|
    ensures Count(s, m) <= Count(s, n)
    ensures m < n && !s.kids[n - 1].Other? ==> Count(s, m) < Count(s, n)
    decreases n
  {
    if m < n { CountGrows(s, m, n - 1); }
  }

  // ----- when all ids are distinct

  predicate IsLeaf(s: Source) {
    Count(s, |s.kids|) == 0
  }

  /** Only the last sub-query or negation of a query has any of its own. */
  predicate OnlyLastNests(s: Source) {
    && (forall k :: 0 <= k < |s.kids| && HasKid(s, k) && Count(s, k + 1) < Count(s, |s.kids|) ==> IsLeaf(s.kids[k].source))
    && (forall k :: 0 <= k < |s.kids| && HasKid(s, k) ==> OnlyLastNests(s.kids[k].source))
  }

  ghost predicate AllDistinct(s: Source) {
    forall p, q :: IsPath(s, p) && IsPath(s, q) && Id(s, p) == Id(s, q) ==> p == q
  }

  lemma {:induction false} ChainDistinct(s: Source, p: Path, q: Path)
    requires OnlyLastNests(s) && IsPath(s, p) && IsPath(s, q) && Id(s, p) == Id(s, q)
    ensures p == q
    decreases |p|
  {
    IdZero(s, p);
    IdZero(s, q);
    if p == [] || q == [] {
    } else if p[0] == q[0] {
      ChainDistinct(s.kids[p[0]].source, p[1..], q[1..]);
      assert p == [p[0]] + p[1..] && q == [q[0]] + q[1..];
    } else if p[0] < q[0] {
      EarlierIsLess(s, p, q);
    } else {
      EarlierIsLess(s, q, p);
    }
  }

  lemma EarlierIsLess(s: Source, p: Path, q: Path)
    requires OnlyLastNests(s) && IsPath(s, p) && IsPath(s, q) && p != [] && q != [] && p[0] < q[0]
    ensures Id(s, p) < Id(s, q)
  {
    CountGrows(s, p[0] + 1, q[0] + 1);
    CountGrows(s, q[0] + 1, |s.kids|);
    assert IsLeaf(s.kids[p[0]].source);
    hide OnlyLastNests, Count;
    LeafPath(s.kids[p[0]].source, p[1..]);
  }

  lemma LeafPath(s: Source, p: Path)
    requires IsLeaf(s) && IsPath(s, p)
    ensures p == []
  {
    if p != [] {
      CountGrows(s, 0, p[0] + 1);
      CountGrows(s, p[0] + 1, |s.kids|);
    }
  }

  lemma IdZero(s: Source, p: Path)
    requires IsPath(s, p)
    ensures Id(s, p) == 0 <==> p == []
  {
    if p != [] { CountGrows(s, 0, p[0] + 1); }
  }

  /** Every number up to the count is taken by a kid. */
  lemma {:induction false} KidNumbered(s: Source, n: nat, c: nat) returns (k: int)
    requires n <= |s.kids| && 1 <= c <= Count(s, n)
    ensures HasKid(s, k) && k < n && Count(s, k + 1) == c
    decreases n
  {
    if Count(s, n) == c && !s.kids[n - 1].Other? { k := n - 1; } else { k := KidNumbered(s, n - 1, c); }
  }

  /** A sub-query nested in one that is not the last has the id of the next one. */
  lemma NestedCollides(s: Source, k: int) returns (p: Path, q: Path)
    requires HasKid(s, k) && Count(s, k + 1) < Count(s, |s.kids|) && !IsLeaf(s.kids[k].source)
    ensures IsPath(s, p) && IsPath(s, q) && p != q && Id(s, p) == Id(s, q)
  {
    var kid := s.kids[k].source;
    var f := KidNumbered(kid, |kid.kids|, 1);
    var n := KidNumbered(s, |s.kids|, Count(s, k + 1) + 1);
    p, q := [k, f], [n];
    assert p[1..] == [f] && [f][1..] == [] && q[1..] == [];
    assert IsPath(kid, [f]) && Id(kid, [f]) == 1;
  }

  lemma {:induction false} CollisionExists(s: Source) returns (p: Path, q: Path)
    requires !OnlyLastNests(s)
    ensures IsPath(s, p) && IsPath(s, q) && p != q && Id(s, p) == Id(s, q)
    decreases s
  {
    if k :| 0 <= k < |s.kids| && HasKid(s, k) && Count(s, k + 1) < Count(s, |s.kids|) && !IsLeaf(s.kids[k].source) {
      p, q := NestedCollides(s, k);
    } else {
      var k :| 0 <= k < |s.kids| && HasKid(s, k) && !OnlyLastNests(s.kids[k].source);
      var p', q' := CollisionExists(s.kids[k].source);
      p, q := [k] + p', [k] + q';
      assert p[1..] == p' && q[1..] == q';
    }
  }

  /** The builder gives distinct ids exactly to trees in which only last children nest. */
  lemma DistinctIffOnlyLastNests(s: Source)
    ensures AllDistinct(s) <==> OnlyLastNests(s)
  {
    if OnlyLastNests(s) {
      forall p, q | IsPath(s, p) && IsPath(s, q) && Id(s, p) == Id(s, q) ensures p == q { ChainDistinct(s, p, q); }
    } else {
      var p, q := CollisionExists(s);
    }
  }

  // ----- without a collision of captured ids, matching is transparent

  /** No two captured sub-queries have the same id; negations have ids, but nothing is memoised under them. */
  ghost predicate NoCollision(s: Source) {
    forall p, q :: IsKey(s, p) && IsKey(s, q) && Id(s, p) == Id(s, q) ==> p == q
  }

  lemma {:induction false} CaptureKid(s: Source, id: int, n: nat, j: nat) returns (k: int)
    requires n <= |s.kids| && j < |Captures(s, id, n)| && Captures(s, id, n)[j].Sub?
    ensures HasKid(s, k) && k < n && s.kids[k].SubQuery? && Captures(s, id, n)[j].tree == Build(s.kids[k].source, id + Count(s, k + 1))
    decreases n
  {
    hide Build;
    if j < |Captures(s, id, n - 1)| { k := CaptureKid(s, id, n - 1, j); } else { k := n - 1; }
  }

  lemma {:induction false} NegationKid(s: Source, id: int, n: nat, j: nat) returns (k: int)
    requires n <= |s.kids| && j < |Negations(s, id, n)|
    ensures HasKid(s, k) && k < n && s.kids[k].Not? && Negations(s, id, n)[j].tree == Build(s.kids[k].source, id + Count(s, k + 1))
    ensures NegIndex(s, k) == j
    decreases n
  {
    hide Build;
    NegationCount(s, id, n - 1);
    if j < |Negations(s, id, n - 1)| { k := NegationKid(s, id, n - 1, j); } else { k := n - 1; }
  }

  /** The place of a kid among the captures, and among the negations. */
  function CapIndex(s: Source, n: nat): nat
    requires n <= |s.kids|
  {
    if n == 0 then 0 else CapIndex(s, n - 1) + if s.kids[n - 1].Not? then 0 else 1
  }

  function NegIndex(s: Source, n: nat): nat
    requires n <= |s.kids|
  {
    if n == 0 then 0 else NegIndex(s, n - 1) + if s.kids[n - 1].Not? then 1 else 0
  }

  lemma {:induction false} CaptureCount(s: Source, id: int, n: nat)
    requires n <= |s.kids|
    ensures |Captures(s, id, n)| == CapIndex(s, n)
  {
    hide Build;
    if n > 0 { CaptureCount(s, id, n - 1); }
  }

  lemma {:induction false} NegationCount(s: Source, id: int, n: nat)
    requires n <= |s.kids|
    ensures |Negations(s, id, n)| == NegIndex(s, n)
  {
    hide Build;
    if n > 0 { NegationCount(s, id, n - 1); }
  }

  /** A captured sub-query of the tree is at the end of a path. */
  ghost predicate OnPath(s: Source, id: int, x: Tree) {
    exists p :: IsKey(s, p) && x == Build(At(s, p), id + Id(s, p))
  }

  lemma KeyCons(s: Source, k: int, p: Path)
    requires HasKid(s, k) && IsKey(s.kids[k].source, p)
    ensures IsKey(s, [k] + p) && At(s, [k] + p) == At(s.kids[k].source, p)
    ensures Id(s, [k] + p) == Count(s, k + 1) + Id(s.kids[k].source, p)
  {
    var q := [k] + p;
    assert q[1..] == p;
    assert q[..|q| - 1] == [k] + p[..|p| - 1];
    assert ([k] + p[..|p| - 1])[1..] == p[..|p| - 1];
  }

  lemma KeyOne(s: Source, k: int)
    requires HasKid(s, k) && s.kids[k].SubQuery?
    ensures IsKey(s, [k]) && At(s, [k]) == s.kids[k].source && Id(s, [k]) == Count(s, k + 1)
  {
    assert [k][1..] == [] && [k][..0] == [];
  }

  lemma OnPathCons(s: Source, id: int, k: int, x: Tree)
    requires HasKid(s, k) && OnPath(s.kids[k].source, id + Count(s, k + 1), x)
    ensures OnPath(s, id, x)
  {
    hide Build;
    var p :| IsKey(s.kids[k].source, p) && x == Build(At(s.kids[k].source, p), id + Count(s, k + 1) + Id(s.kids[k].source, p));
    KeyCons(s, k, p);
    hide IsKey;
    assert IsKey(s, [k] + p) && x == Build(At(s, [k] + p), id + Id(s, [k] + p));
  }

  lemma {:induction false} CapturedOnPath(s: Source, id: int, x: Tree)
    requires x in Captured(Build(s, id))
    ensures OnPath(s, id, x)
    decreases s, 1, 0
  {
    var t := Build(s, id);
    if x in FromCaptures(t, |t.captures|) {
      CapturesOnPath(s, id, |t.captures|, x);
    } else {
      NegationsOnPath(s, id, |t.negations|, x);
    }
  }

  lemma {:induction false} CapturesOnPath(s: Source, id: int, n: nat, x: Tree)
    requires n <= |Build(s, id).captures| && x in FromCaptures(Build(s, id), n)
    ensures OnPath(s, id, x)
    decreases s, 0, n
  {
    var t := Build(s, id);
    if x in FromCaptures(t, n - 1) {
      CapturesOnPath(s, id, n - 1, x);
    } else {
      var k := CaptureKid(s, id, |s.kids|, n - 1);
      var sub := t.captures[n - 1].tree;
      if x == sub {
        KeyOne(s, k);
        hide IsKey, Build;
        assert IsKey(s, [k]) && x == Build(At(s, [k]), id + Id(s, [k]));
      } else {
        assert x in Captured(sub);
        CapturedOnPath(s.kids[k].source, id + Count(s, k + 1), x);
        OnPathCons(s, id, k, x);
      }
    }
  }

  lemma {:induction false} NegationsOnPath(s: Source, id: int, n: nat, x: Tree)
    requires n <= |Build(s, id).negations| && x in FromNegations(Build(s, id), n)
    ensures OnPath(s, id, x)
    decreases s, 0, n
  {
    var t := Build(s, id);
    if x in FromNegations(t, n - 1) {
      NegationsOnPath(s, id, n - 1, x);
    } else {
      var k := NegationKid(s, id, |s.kids|, n - 1);
      CapturedOnPath(s.kids[k].source, id + Count(s, k + 1), x);
      OnPathCons(s, id, k, x);
    }
  }

  /** If captured ids do not collide, the cache makes no difference to a tree that the builder made. */
  lemma NoCollisionIsTransparent(env: Env, s: Source, root: Node)
    requires NoCollision(s)
    ensures CMatch(env, Build(s, 0), root, map[]).value == Match(env, Build(s, 0), root)
  {
    var ts := Captured(Build(s, 0));
    forall i, j | 0 <= i < j < |ts| && ts[i].id == ts[j].id ensures ts[i] == ts[j] {
      CapturedOnPath(s, 0, ts[i]);
      CapturedOnPath(s, 0, ts[j]);
      var p :| IsKey(s, p) && ts[i] == Build(At(s, p), 0 + Id(s, p));
      var q :| IsKey(s, q) && ts[j] == Build(At(s, q), 0 + Id(s, q));
    }
    hide Build, Captured;
    ConsistentIsTransparent(env, Build(s, 0), root);
  }
}
