/**
 For which queries the memo is transparent: exactly those in which captured sub-queries with the same
 id are the same query.
 */
module QueryExact {
  import opened QueryMatch
  import opened QueryStable
  import opened QueryIds
  import opened QueryProbe

  /** Every query has a pattern, and numbers of queries tell them apart. */
  ghost predicate Numbered(s: Source) {
    && (forall p :: IsPath(s, p) ==> At(s, p).patterns >= 1)
    && (forall p, q :: IsPath(s, p) && IsPath(s, q) && At(s, p).query == At(s, q).query ==> At(s, p) == At(s, q))
  }

  // ----- what the builder makes is tidy

  lemma KidCount(s: Source, k: int)
    requires HasKid(s, k)
    ensures Count(s, k + 1) > 0
  {
    CountGrows(s, 0, k + 1);
  }

  lemma {:induction false} BuildRises(s: Source, id: int)
    ensures Rising(Build(s, id))
    decreases s
  {
    var t := Build(s, id);
    forall i | 0 <= i < |t.captures| ensures RisingCapture(t.id, t.captures[i]) {
      if t.captures[i].Sub? {
        var k := CaptureKid(s, id, |s.kids|, i);
        KidCount(s, k);
        BuildRises(s.kids[k].source, id + Count(s, k + 1));
      }
    }
    forall i | 0 <= i < |t.negations| ensures t.negations[i].tree.id > t.id && Rising(t.negations[i].tree) {
      var k := NegationKid(s, id, |s.kids|, i);
      KidCount(s, k);
      BuildRises(s.kids[k].source, id + Count(s, k + 1));
    }
  }

  /** Kids are numbered apart. */
  lemma CountOnce(s: Source, i: int, k: int)
    requires HasKid(s, i) && HasKid(s, k) && Count(s, i + 1) == Count(s, k + 1)
    ensures i == k
  {
    var a, b := if i <= k then i else k, if i <= k then k else i;
    CountGrows(s, a + 1, b + 1);
  }

  lemma BuildKidsApart(s: Source, id: int)
    ensures KidsApart(Build(s, id))
  {
    var t := Build(s, id);
    forall i, j | 0 <= i < |t.captures| && 0 <= j < |t.captures| && SameId(t.captures[i], t.captures[j]) ensures t.captures[i] == t.captures[j] {
      var k := CaptureKid(s, id, |s.kids|, i);
      var l := CaptureKid(s, id, |s.kids|, j);
      BuildId(s.kids[k].source, id + Count(s, k + 1));
      BuildId(s.kids[l].source, id + Count(s, l + 1));
      hide Build;
      CountOnce(s, k, l);
    }
    forall i, j | 0 <= i < j < |t.negations| ensures t.negations[i].tree.id != t.negations[j].tree.id {
      var k := NegationKid(s, id, |s.kids|, i);
      var l := NegationKid(s, id, |s.kids|, j);
      BuildId(s.kids[k].source, id + Count(s, k + 1));
      BuildId(s.kids[l].source, id + Count(s, l + 1));
      hide Build;
      if Count(s, k + 1) == Count(s, l + 1) { CountOnce(s, k, l); }
    }
  }

  lemma BuildId(s: Source, id: int)
    ensures Build(s, id).id == id
  {}

  lemma BuildShape(s: Source, id: int)
    ensures var t := Build(s, id);
            t.query == s.query && t.patterns == s.patterns && |t.captures| == CapIndex(s, |s.kids|) && |t.negations| == NegIndex(s, |s.kids|)
  {
    CaptureCount(s, id, |s.kids|);
    NegationCount(s, id, |s.kids|);
  }

  /** x is at the end of a path. */
  ghost predicate Placed(s: Source, id: int, x: Tree) {
    exists p :: IsPath(s, p) && x == Build(At(s, p), id + Id(s, p))
  }

  lemma PlacedCons(s: Source, id: int, k: int, x: Tree)
    requires HasKid(s, k) && Placed(s.kids[k].source, id + Count(s, k + 1), x)
    ensures Placed(s, id, x)
  {
    hide Build;
    var p :| IsPath(s.kids[k].source, p) && x == Build(At(s.kids[k].source, p), id + Count(s, k + 1) + Id(s.kids[k].source, p));
    var q := [k] + p;
    assert q[1..] == p;
    assert IsPath(s, q) && x == Build(At(s, q), id + Id(s, q));
  }

  lemma {:induction false} PartPlaced(s: Source, id: int, x: Tree)
    requires Part(x, Build(s, id))
    ensures Placed(s, id, x)
    decreases s
  {
    var t := Build(s, id);
    if x == t {
      assert IsPath(s, []) && At(s, []) == s && Id(s, []) == 0;
    } else if i :| 0 <= i < |t.captures| && PartOfCapture(x, t.captures[i]) {
      var k := CaptureKid(s, id, |s.kids|, i);
      PartPlaced(s.kids[k].source, id + Count(s, k + 1), x);
      PlacedCons(s, id, k, x);
    } else {
      var i :| 0 <= i < |t.negations| && Part(x, t.negations[i].tree);
      var k := NegationKid(s, id, |s.kids|, i);
      PartPlaced(s.kids[k].source, id + Count(s, k + 1), x);
      PlacedCons(s, id, k, x);
    }
  }

  lemma BuildTidy(s: Source)
    requires Numbered(s)
    ensures Tidy(Build(s, 0))
  {
    hide Build, Part, Rising, KidsApart;
    var t := Build(s, 0);
    forall x | Part(x, t) ensures Rising(x) && x.patterns >= 1 && KidsApart(x) {
      PartPlaced(s, 0, x);
      var p :| IsPath(s, p) && x == Build(At(s, p), 0 + Id(s, p));
      BuildRises(At(s, p), Id(s, p));
      BuildKidsApart(At(s, p), Id(s, p));
      BuildShape(At(s, p), Id(s, p));
    }
    forall x, y | Part(x, t) && Part(y, t) && x.query == y.query ensures SameShape(x, y) {
      PartPlaced(s, 0, x);
      PartPlaced(s, 0, y);
      var p :| IsPath(s, p) && x == Build(At(s, p), 0 + Id(s, p));
      var q :| IsPath(s, q) && y == Build(At(s, q), 0 + Id(s, q));
      BuildShape(At(s, p), Id(s, p));
      BuildShape(At(s, q), Id(s, q));
      BuildId(At(s, p), Id(s, p));
      BuildId(At(s, q), Id(s, q));
    }
  }

  // ----- every captured path is in the tree

  lemma {:induction false} KidCapture(x: Source, id: int, n: nat, k: int) returns (i: nat)
    requires n <= |x.kids| && 0 <= k < n && x.kids[k].SubQuery?
    ensures i < |Captures(x, id, n)| && Captures(x, id, n)[i] == Sub(Build(x.kids[k].source, id + Count(x, k + 1)))
    decreases n
  {
    hide Build;
    if k < n - 1 { i := KidCapture(x, id, n - 1, k); } else { i := |Captures(x, id, n - 1)|; }
  }

  lemma {:induction false} KidNegation(x: Source, id: int, n: nat, k: int) returns (i: nat)
    requires n <= |x.kids| && 0 <= k < n && x.kids[k].Not?
    ensures i < |Negations(x, id, n)| && Negations(x, id, n)[i].tree == Build(x.kids[k].source, id + Count(x, k + 1))
    decreases n
  {
    hide Build;
    if k < n - 1 { i := KidNegation(x, id, n - 1, k); } else { i := |Negations(x, id, n - 1)|; }
  }

  lemma {:induction false} FromCapture(t: Tree, n: nat, i: nat, y: Tree)
    requires i < n <= |t.captures| && t.captures[i].Sub? && (y == t.captures[i].tree || y in Captured(t.captures[i].tree))
    ensures y in FromCaptures(t, n)
    decreases n
  {
    hide Captured;
    if i < n - 1 { FromCapture(t, n - 1, i, y); }
  }

  lemma {:induction false} FromNegation(t: Tree, n: nat, i: nat, y: Tree)
    requires i < n <= |t.negations| && y in Captured(t.negations[i].tree)
    ensures y in FromNegations(t, n)
    decreases n
  {
    hide Captured;
    if i < n - 1 { FromNegation(t, n - 1, i, y); }
  }

  lemma CapturedFrom(t: Tree, i: nat, y: Tree)
    requires i < |t.captures| && t.captures[i].Sub? && (y == t.captures[i].tree || y in Captured(t.captures[i].tree))
    ensures y in Captured(t)
  {
    FromCapture(t, |t.captures|, i, y);
  }

  lemma NegatedFrom(t: Tree, i: nat, y: Tree)
    requires i < |t.negations| && y in Captured(t.negations[i].tree)
    ensures y in Captured(t)
  {
    FromNegation(t, |t.negations|, i, y);
  }

  lemma BuildParts(s: Source, id: int)
    ensures Build(s, id).captures == Captures(s, id, |s.kids|) && Build(s, id).negations == Negations(s, id, |s.kids|)
  {}

  lemma {:induction false} KeyCaptured(s: Source, id: int, p: Path)
    requires IsKey(s, p)
    ensures Build(At(s, p), id + Id(s, p)) in Captured(Build(s, id))
    decreases |p|
  {
    hide Build, Captured, Captures, Negations, Count;
    var k, t, y := p[0], Build(s, id), Build(At(s, p), id + Id(s, p));
    KeyTail(s, p);
    BuildParts(s, id);
    if |p| > 1 { KeyCaptured(s.kids[k].source, id + Count(s, k + 1), p[1..]); }
    hide IsKey, At, Id, IsPath;
    if s.kids[k].SubQuery? {
      var i := KidCapture(s, id, |s.kids|, k);
      CapturedFrom(t, i, y);
    } else {
      var i := KidNegation(s, id, |s.kids|, k);
      NegatedFrom(t, i, y);
    }
  }

  lemma KeyTail(s: Source, p: Path)
    requires IsKey(s, p)
    ensures HasKid(s, p[0]) && (|p| == 1 ==> s.kids[p[0]].SubQuery? && At(s, p) == s.kids[p[0]].source && Id(s, p) == Count(s, p[0] + 1))
    ensures |p| > 1 ==> IsKey(s.kids[p[0]].source, p[1..]) && At(s, p) == At(s.kids[p[0]].source, p[1..])
                        && Id(s, p) == Count(s, p[0] + 1) + Id(s.kids[p[0]].source, p[1..])
  {
    if |p| == 1 {
      assert p[..0] == [] && p[1..] == [];
    } else {
      assert p[..|p| - 1][1..] == p[1..][..|p| - 2];
      assert p[1..][|p| - 2] == p[|p| - 1];
    }
  }

  // ----- the exact condition

  /** Captured sub-queries with the same id are the same query. */
  ghost predicate SharedAlike(s: Source) {
    forall p, q :: IsKey(s, p) && IsKey(s, q) && Id(s, p) == Id(s, q) ==> At(s, p) == At(s, q)
  }

  lemma ConsistentIffSharedAlike(s: Source)
    requires Numbered(s)
    ensures Consistent(Captured(Build(s, 0))) <==> SharedAlike(s)
  {
    hide Build, Captured, Numbered;
    var ts := Captured(Build(s, 0));
    if Consistent(ts) {
      forall p, q | IsKey(s, p) && IsKey(s, q) && Id(s, p) == Id(s, q) ensures At(s, p) == At(s, q) { AlikePaths(s, p, q); }
    }
    if SharedAlike(s) {
      forall i, j | 0 <= i < j < |ts| && ts[i].id == ts[j].id ensures ts[i] == ts[j] {
        CapturedOnPath(s, 0, ts[i]);
        CapturedOnPath(s, 0, ts[j]);
        var p :| IsKey(s, p) && ts[i] == Build(At(s, p), 0 + Id(s, p));
        var q :| IsKey(s, q) && ts[j] == Build(At(s, q), 0 + Id(s, q));
        BuildId(At(s, p), Id(s, p));
        BuildId(At(s, q), Id(s, q));
      }
    }
  }

  lemma AlikePaths(s: Source, p: Path, q: Path)
    requires Numbered(s) && IsKey(s, p) && IsKey(s, q) && Id(s, p) == Id(s, q) && Consistent(Captured(Build(s, 0)))
    ensures At(s, p) == At(s, q)
  {
    hide Build, Captured;
    KeyCaptured(s, 0, p);
    KeyCaptured(s, 0, q);
    BuildShape(At(s, p), Id(s, p));
    BuildShape(At(s, q), Id(s, q));
    BuildId(At(s, p), Id(s, p));
    BuildId(At(s, q), Id(s, q));
    var ts := Captured(Build(s, 0));
    var x, y := Build(At(s, p), 0 + Id(s, p)), Build(At(s, q), 0 + Id(s, q));
    var i :| 0 <= i < |ts| && ts[i] == x;
    var j :| 0 <= j < |ts| && ts[j] == y;
    assert x == y;
  }

  ghost predicate TransparentAt(env: Env, t: Tree, root: Node) {
    CMatch(env, t, root, map[]).value == Match(env, t, root)
  }

  /** The memo makes no difference, whatever is matched, exactly when captured sub-queries with the same id are the same query. */
  lemma TransparentIffSharedAlike(s: Source)
    requires Numbered(s)
    ensures (forall env, root :: TransparentAt(env, Build(s, 0), root)) <==> SharedAlike(s)
  {
    hide Numbered, Match, CMatch, Build, Captured, Consistent, Tidy, SharedAlike;
    var t := Build(s, 0);
    ConsistentIffSharedAlike(s);
    BuildTidy(s);
    if SharedAlike(s) {
      forall env, root ensures TransparentAt(env, t, root) { ConsistentIsTransparent(env, t, root); }
    } else if forall env, root :: TransparentAt(env, t, root) {
      assert TransparentAt(Probe(t), t, 0);
      ProbeDecides(t);
    }
  }

  // ----- a small query that fails

  /** A query with two sub-queries, the first with one of its own. */
  function Nested(): Source {
    Source(0, 1, [SubQuery(Source(1, 1, [SubQuery(Source(2, 1, []))])), SubQuery(Source(3, 1, []))])
  }

  lemma NestedPaths(p: Path)
    requires IsPath(Nested(), p)
    ensures p in [[], [0], [0, 0], [1]]
    ensures At(Nested(), p).patterns == 1 && At(Nested(), p).query == (if p == [] then 0 else if p == [0] then 1 else if p == [0, 0] then 2 else 3)
  {
    if |p| >= 1 {
      var s := Nested().kids[p[0]].source;
      assert IsPath(s, p[1..]);
      if |p| >= 2 {
        assert p[0] == 0 && p[1] == 0;
        assert p[1..][1..] == p[2..];
        assert IsPath(s.kids[0].source, p[2..]);
        assert |p| == 2;
        assert p == [0, 0];
      } else {
        assert p == [p[0]];
      }
    }
  }

  lemma NestedCaptures()
    ensures Captures(Nested(), 0, 2) == [Sub(Build(Nested().kids[0].source, 1)), Sub(Build(Nested().kids[1].source, 2))]
  {
    hide Build;
    var s := Nested();
    assert Count(s, 0) == 0 && Count(s, 1) == 1 && Count(s, 2) == 2;
    assert Captures(s, 0, 0) == [] && Captures(s, 0, 1) == [Sub(Build(s.kids[0].source, 1))];
  }

  lemma NestedTree()
    ensures Build(Nested(), 0) == Tree(0, 1, [Sub(Tree(1, 1, [Sub(Tree(2, 1, [], [], 2))], [], 1)), Sub(Tree(3, 1, [], [], 2))], [], 0)
  {
    var s := Nested();
    var c, d := s.kids[0].source, s.kids[1].source;
    var e := c.kids[0].source;
    NestedCaptures();
    assert Build(d, 2) == Tree(3, 1, [], [], 2) && Build(e, 2) == Tree(2, 1, [], [], 2);
    assert Count(c, 0) == 0 && Count(c, 1) == 1;
    assert Captures(c, 1, 0) == [] && Captures(c, 1, 1) == [Sub(Build(e, 2))];
    assert Negations(c, 1, 0) == [] && Negations(c, 1, 1) == [];
    assert Negations(s, 0, 0) == [] && Negations(s, 0, 1) == [] && Negations(s, 0, 2) == [];
  }

  lemma NestedNumbered()
    ensures Numbered(Nested())
  {
    var s := Nested();
    forall p | IsPath(s, p) ensures At(s, p).patterns >= 1 { NestedPaths(p); }
    forall p, q | IsPath(s, p) && IsPath(s, q) && At(s, p).query == At(s, q).query ensures At(s, p) == At(s, q) { NestedPaths(p); NestedPaths(q); }
  }

  lemma NestedDiffers()
    ensures !SharedAlike(Nested())
  {
    var s := Nested();
    KeyOne(s, 1);
    KeyOne(s.kids[0].source, 0);
    KeyCons(s, 0, [0]);
    assert [0] + [0] == [0, 0];
    assert Count(s, 0) == 0 && Count(s, 1) == 1 && Count(s, 2) == 2;
    assert IsKey(s, [0, 0]) && IsKey(s, [1]) && Id(s, [0, 0]) == Id(s, [1]);
  }

  /** The builder gives both the nested sub-query and the second one id 2, and then the memo can give a wrong result. */
  lemma CollisionBreaksMatching() returns (env: Env, root: Node)
    ensures Build(Nested(), 0) == Tree(0, 1, [Sub(Tree(1, 1, [Sub(Tree(2, 1, [], [], 2))], [], 1)), Sub(Tree(3, 1, [], [], 2))], [], 0)
    ensures CMatch(env, Build(Nested(), 0), root, map[]).value != Match(env, Build(Nested(), 0), root)
  {
    hide Numbered, SharedAlike, Match, CMatch, Build;
    NestedTree();
    NestedNumbered();
    NestedDiffers();
    TransparentIffSharedAlike(Nested());
    env, root :| !TransparentAt(env, Build(Nested(), 0), root);
  }
}
