/**
 Slot ranges in nodes.conf: how a node's slots are printed and loaded back.
 */
module SlotRanges {
  import opened Basics
  import opened Bitmap
  import opened Decimal
  import opened SlotTable
  import opened ClusterNodes
  import opened ClusterSlots

  datatype Range = Range(start: nat, stop: nat)

  function Token(r: Range): string {
    if r.start == r.stop then Show(r.start) else Show(r.start) + "-" + Show(r.stop)
  }

  /** Each token after a space. */
  function Render(rs: seq<Range>): string {
    if rs == [] then "" else Render(rs[..|rs| - 1]) + " " + Token(rs[|rs| - 1])
  }

  ghost predicate In(rs: seq<Range>, k: int) {
    exists i :: 0 <= i < |rs| && rs[i].start <= k <= rs[i].stop
  }

  /** Ranges in increasing order, each non-empty, with a gap between any two. */
  ghost predicate Separated(rs: seq<Range>) {
    && (forall i :: 0 <= i < |rs| ==> rs[i].start <= rs[i].stop < Slots)
    && (forall i, j :: 0 <= i < j < |rs| ==> rs[i].stop + 1 < rs[j].start)
  }

  /** The set bits as increasing ranges, none of which could be longer. */
  ghost predicate MaximalRanges(bits: Bitmap, rs: seq<Range>) {
    Separated(rs) && forall k :: 0 <= k < Slots ==> (TestBit(bits, k) <==> In(rs, k))
  }

  /** The text lists the set bits as maximal ranges. */
  ghost predicate Prints(bits: Bitmap, text: string) {
    exists rs :: MaximalRanges(bits, rs) && text == Render(rs)
  }

  ghost predicate SameCover(a: seq<Range>, b: seq<Range>) {
    forall k :: In(a, k) <==> In(b, k)
  }

  /** There is only one such list of ranges, so only one such text. */
  lemma PrintsOnce(bits: Bitmap, a: seq<Range>, b: seq<Range>)
    requires MaximalRanges(bits, a) && MaximalRanges(bits, b)
    ensures a == b
  {
    hide TestBit;
    forall k ensures In(a, k) <==> In(b, k) {
      if 0 <= k < Slots { assert TestBit(bits, k) <==> In(a, k); }
    }
    hide MaximalRanges;
    CoverDetermines(a, b);
  }

  lemma {:induction false} CoverDetermines(a: seq<Range>, b: seq<Range>)
    requires Separated(a) && Separated(b) && SameCover(a, b)
    ensures a == b
    decreases |a|
  {
    SameEmpty(a, b);
    SameEmpty(b, a);
    if a != [] {
      FirstRange(a);
      FirstRange(b);
      assert In(a, b[0].start) && In(b, a[0].start);
      assert In(a, a[0].stop + 1) <==> In(b, a[0].stop + 1);
      assert In(a, b[0].stop + 1) <==> In(b, b[0].stop + 1);
      assert a[0] == b[0];
      forall k ensures In(a[1..], k) <==> In(b[1..], k) {
        InTail(a, k);
        InTail(b, k);
      }
      hide In;
      CoverDetermines(a[1..], b[1..]);
      assert a == [a[0]] + a[1..] && b == [b[0]] + b[1..];
    }
  }

  lemma SameEmpty(a: seq<Range>, b: seq<Range>)
    requires Separated(b) && SameCover(a, b)
    ensures a == [] ==> b == []
  {
    if b != [] {
      var k := b[0].start;
      FirstRange(b);
      NothingIn(k);
    }
  }

  lemma NothingIn(k: int)
    ensures !In([], k)
  {}

  lemma FirstRange(rs: seq<Range>)
    requires Separated(rs) && rs != []
    ensures In(rs, rs[0].start) && (forall k :: In(rs, k) ==> k >= rs[0].start)
    ensures !In(rs, rs[0].stop + 1) && forall k :: rs[0].start <= k <= rs[0].stop ==> In(rs, k)
  {}

  lemma InTail(rs: seq<Range>, k: int)
    requires Separated(rs) && rs != []
    ensures In(rs[1..], k) <==> In(rs, k) && k > rs[0].stop
  {
    if In(rs[1..], k) {
      var i :| 0 <= i < |rs| - 1 && rs[1..][i].start <= k <= rs[1..][i].stop;
      assert rs[i + 1].start <= k <= rs[i + 1].stop;
    }
    if In(rs, k) && k > rs[0].stop {
      var i :| 0 <= i < |rs| && rs[i].start <= k <= rs[i].stop;
      assert rs[1..][i - 1] == rs[i];
    }
  }

  lemma InSnoc(rs: seq<Range>, r: Range, k: int)
    ensures In(rs + [r], k) <==> In(rs, k) || r.start <= k <= r.stop
  {
    if In(rs, k) {
      var i :| 0 <= i < |rs| && rs[i].start <= k <= rs[i].stop;
      assert (rs + [r])[i] == rs[i];
    }
    if r.start <= k <= r.stop { assert (rs + [r])[|rs|] == r; }
  }

  /** The ranges printed cover the set bits below `upto`, and a range beginning there is apart from them. */
  ghost predicate Done(bits: Bitmap, rs: seq<Range>, upto: nat) {
    && Separated(rs)
    && (forall i :: 0 <= i < |rs| ==> rs[i].stop + 1 < upto)
    && (forall k :: 0 <= k < Slots && k < upto ==> (TestBit(bits, k) <==> In(rs, k)))
  }

  ghost predicate AllSet(bits: Bitmap, start: nat, upto: nat)
    requires upto <= Slots
  {
    forall k :: start <= k < upto ==> TestBit(bits, k)
  }

  lemma AllSetMore(bits: Bitmap, start: nat, j: nat)
    requires j < Slots && AllSet(bits, start, j) && TestBit(bits, j)
    ensures AllSet(bits, start, j + 1)
  {
    hide TestBit;
  }

  lemma DoneSkip(bits: Bitmap, rs: seq<Range>, j: nat)
    requires Done(bits, rs, j) && j < Slots && !TestBit(bits, j)
    ensures Done(bits, rs, j + 1)
  {
    hide TestBit;
  }

  lemma DoneRange(bits: Bitmap, rs: seq<Range>, start: nat, stop: nat)
    requires Done(bits, rs, start) && start <= stop < Slots
    requires AllSet(bits, start, stop + 1)
    requires stop + 1 < Slots ==> !TestBit(bits, stop + 1)
    ensures Done(bits, rs + [Range(start, stop)], stop + 2)
  {
    hide TestBit, In;
    var r := Range(start, stop);
    assert Separated(rs + [r]);
    forall k | 0 <= k < Slots && k < stop + 2 ensures TestBit(bits, k) <==> In(rs + [r], k) {
      InSnoc(rs, r, k);
      if k >= start { NotIn(rs, start, k); }
    }
  }

  lemma NotIn(rs: seq<Range>, upto: nat, k: nat)
    requires upto <= k && forall i :: 0 <= i < |rs| ==> rs[i].stop + 1 < upto
    ensures !In(rs, k)
  {}

  method PrintRange(text: string, start: nat, stop: nat, bits: Bitmap, ghost rs: seq<Range>) returns (more: string, ghost rs': seq<Range>)
    requires start <= stop < Slots && text == Render(rs) && Done(bits, rs, start)
    requires AllSet(bits, start, stop + 1) && (stop + 1 < Slots ==> !TestBit(bits, stop + 1))
    ensures more == Render(rs') && Done(bits, rs', stop + 2)
  {
    hide Show, TestBit, Done, Render, AllSet;
    DoneRange(bits, rs, start, stop);
    RenderSnoc(rs, Range(start, stop));
    rs' := rs + [Range(start, stop)];
    if start == stop {
      more := text + " " + Show(start);
    } else {
      more := text + " " + (Show(start) + "-" + Show(stop));
    }
  }

  /** The part of clusterGenNodeDescription that prints the slots. */
  method PrintSlots(bits: Bitmap) returns (text: string)
    ensures Prints(bits, text)
  {
    text := "";
    ghost var rs: seq<Range> := [];
    assert Done(bits, rs, 0) && text == Render(rs);
    hide TestBit, Done, Render, MaximalRanges;
    var start: int := -1;
    var j := 0;
    while j < Slots
      invariant 0 <= j <= Slots + 1 && -1 <= start < j && (start != -1 ==> j < Slots)
      invariant text == Render(rs) && Done(bits, rs, if start == -1 then j else start)
      invariant start != -1 ==> AllSet(bits, start, j)
      decreases Slots + 1 - j
    {
      var bit := TestBit(bits, j);
      if !bit && start == -1 { DoneSkip(bits, rs, j); }
      if bit && start == -1 { start := j; }
      if bit { AllSetMore(bits, start, j); }
      if start != -1 && (!bit || j == Slots - 1) {
        if bit && j == Slots - 1 { j := j + 1; }
        text, rs := PrintRange(text, start, j - 1, bits, rs);
        start := -1;
      }
      j := j + 1;
    }
    DoneAll(bits, rs, j);
  }

  lemma RenderSnoc(rs: seq<Range>, r: Range)
    ensures Render(rs + [r]) == Render(rs) + " " + Token(r)
  {
    hide Token;
    assert (rs + [r])[..|rs|] == rs;
  }

  lemma DoneAll(bits: Bitmap, rs: seq<Range>, j: nat)
    requires Done(bits, rs, j) && j >= Slots
    ensures MaximalRanges(bits, rs)
  {
    hide TestBit, In;
  }

  // ----- loading

  /** The words of a line, between spaces. */
  function Words(s: string): seq<string>
    decreases |s|
  {
    if s == [] then [] else if s[0] == ' ' then Words(s[1..]) else [s[..Word(s)]] + Words(s[Word(s)..])
  }

  /** The length of the word at the head of s. */
  function Word(s: string): (n: nat)
    ensures n <= |s| && (s != [] && s[0] != ' ' ==> n > 0)
  {
    if s == [] || s[0] == ' ' then 0 else 1 + Word(s[1..])
  }

  /** Where the first `c` is, or the length. */
  function Find(s: string, c: char): (n: nat)
    ensures n <= |s| && (forall i :: 0 <= i < n ==> s[i] != c) && (n < |s| ==> s[n] == c)
  {
    if s == [] || s[0] == c then 0 else 1 + Find(s[1..], c)
  }

  /** The slots a token names, from start to stop. */
  function Start(token: string): int {
    Atoi(token[..Find(token, '-')])
  }

  function Stop(token: string): int {
    var p := Find(token, '-');
    if p < |token| then Atoi(token[p + 1..]) else Atoi(token)
  }

  lemma TokenShape(r: Range)
    ensures |Token(r)| > 0 && ' ' !in Token(r) && Token(r)[0] != '['
  {
    ShowDigits(r.start);
    ShowDigits(r.stop);
    assert IsDigit(Show(r.start)[0]);
  }

  /** Reading a printed range gives the range. */
  lemma TokenRange(r: Range)
    ensures Start(Token(r)) == r.start && Stop(Token(r)) == r.stop
  {
    ShowDigits(r.start);
    ShowDigits(r.stop);
    AtoiShow(r.start);
    AtoiShow(r.stop);
    var t, a, b := Token(r), Show(r.start), Show(r.stop);
    var p := Find(t, '-');
    hide Show, Atoi;
    if r.start == r.stop {
      assert p == |t| && t[..p] == t;
    } else {
      assert t[|a|] == '-' && forall i :: 0 <= i < |a| ==> t[i] == a[i];
      assert p == |a|;
      assert t[..p] == a && t[p + 1..] == b;
    }
  }

  lemma {:induction false} WordHead(w: string, rest: string)
    requires ' ' !in w && (rest == [] || rest[0] == ' ')
    ensures Word(w + rest) == |w|
  {
    if w != [] {
      assert w[0] in w;
      assert (w + rest)[1..] == w[1..] + rest;
      WordHead(w[1..], rest);
    } else {
      assert w + rest == rest;
    }
  }

  function Tokens(rs: seq<Range>): (ts: seq<string>)
    ensures |ts| == |rs| && forall i :: 0 <= i < |rs| ==> ts[i] == Token(rs[i])
  {
    seq(|rs|, i requires 0 <= i < |rs| => Token(rs[i]))
  }

  lemma {:induction false} RenderCons(rs: seq<Range>)
    requires |rs| > 0
    ensures Render(rs) == " " + Token(rs[0]) + Render(rs[1..])
  {
    var n := |rs| - 1;
    if n == 0 {
      assert Render(rs[..0]) == "" && Render(rs[1..]) == "";
    } else {
      RenderCons(rs[..n]);
      assert rs[..n][1..] == rs[1..][..n - 1];
      assert Render(rs[1..]) == Render(rs[1..][..n - 1]) + " " + Token(rs[n]);
    }
  }

  lemma RenderHead(rs: seq<Range>)
    ensures Render(rs) == [] || Render(rs)[0] == ' '
  {
    hide Token;
    if rs != [] { RenderCons(rs); }
  }

  lemma WordsCons(w: string, rest: string)
    requires |w| > 0 && ' ' !in w && Word(w + rest) == |w|
    ensures Words(" " + w + rest) == [w] + Words(rest)
  {
    var line := w + rest;
    assert line[0] == w[0] && w[0] in w;
    assert (" " + w + rest)[1..] == line;
    assert line[..|w|] == w && line[|w|..] == rest;
  }

  lemma TokensCons(rs: seq<Range>)
    requires |rs| > 0
    ensures Tokens(rs) == [Token(rs[0])] + Tokens(rs[1..])
  {
    hide Token;
  }

  lemma WordsStep(rs: seq<Range>)
    requires |rs| > 0
    ensures Words(Render(rs)) == [Token(rs[0])] + Words(Render(rs[1..]))
  {
    RenderCons(rs);
    TokenShape(rs[0]);
    RenderHead(rs[1..]);
    hide Token, Render, Words, Word;
    WordHead(Token(rs[0]), Render(rs[1..]));
    WordsCons(Token(rs[0]), Render(rs[1..]));
  }

  /** Splitting the printed line gives back the tokens. */
  lemma {:induction false} WordsOfRender(rs: seq<Range>)
    ensures Words(Render(rs)) == Tokens(rs)
    decreases |rs|
  {
    if rs != [] {
      hide Token, Render, Words, Tokens;
      WordsStep(rs);
      TokensCons(rs);
      WordsOfRender(rs[1..]);
    }
  }

  /** The slots named by the tokens; a token that begins with a bracket names none. */
  ghost predicate Named(tokens: seq<string>, k: int) {
    exists i :: 0 <= i < |tokens| && NamedBy(tokens[i], k)
  }

  predicate NamedBy(token: string, k: int) {
    (token == [] || token[0] != '[') && Start(token) <= k <= Stop(token)
  }

  /** All slots of the token are in the table. The loader does not check this: others are accesses out of bounds. */
  ghost predicate InBounds(token: string) {
    forall k: int :: NamedBy(token, k) ==> 0 <= k < Slots
  }

  /** clusterAddSlot for every slot in turn, up to one that is not in the table; a slot that is taken keeps its owner. */
  method LoadRange(cluster: Cluster, n: Id, start: int, stop: int) returns (ok: bool)
    requires cluster.Valid() && n in cluster.nodes
    modifies cluster`slots, cluster`nodes
    ensures ok <==> (start <= stop ==> 0 <= start && stop < Slots)
    ensures cluster.Valid() && SameButSlots(old(cluster.nodes), cluster.nodes)
    ensures forall k :: 0 <= k < Slots ==> cluster.slots[k] == if 0 <= start <= k <= stop && old(cluster.slots)[k].None? then Some(n) else old(cluster.slots)[k]
  {
    hide Agrees, Linked, Reported, Names;
    var next := start;
    while next <= stop
      invariant start <= next && (next == start || (0 <= start && next <= stop + 1 && next <= Slots))
      invariant cluster.Valid() && SameButSlots(old(cluster.nodes), cluster.nodes)
      invariant forall k :: 0 <= k < Slots ==>
        cluster.slots[k] == if start <= k < next && old(cluster.slots)[k].None? then Some(n) else old(cluster.slots)[k]
      decreases stop - next
    {
      if next < 0 || next >= Slots { return false; }
      ghost var before := cluster.nodes;
      var _ := cluster.AddSlot(n, next);
      SameButSlotsTrans(old(cluster.nodes), before, cluster.nodes);
      next := next + 1;
    }
    ok := true;
  }

  /** The slots that are loaded when the first `loaded` tokens are in bounds, and the next, if any, is not. */
  ghost predicate Loads(tokens: seq<string>, loaded: nat, k: int)
    requires loaded <= |tokens|
  {
    Named(tokens[..loaded], k) || (loaded < |tokens| && 0 <= Start(tokens[loaded]) && NamedBy(tokens[loaded], k))
  }

  method LoadSlots(cluster: Cluster, n: Id, tokens: seq<string>) returns (loaded: nat)
    requires cluster.Valid() && n in cluster.nodes
    modifies cluster`slots, cluster`nodes
    ensures loaded <= |tokens| && (forall i :: 0 <= i < loaded ==> InBounds(tokens[i])) && (loaded < |tokens| ==> !InBounds(tokens[loaded]))
    ensures cluster.Valid() && SameButSlots(old(cluster.nodes), cluster.nodes)
    ensures forall k :: 0 <= k < Slots ==> cluster.slots[k] == if Loads(tokens, loaded, k) && old(cluster.slots)[k].None? then Some(n) else old(cluster.slots)[k]
  {
    hide Agrees, Linked, Reported, Names, Start, Stop, Named, InBounds;
    loaded := 0;
    forall k: int ensures !Named(tokens[..0], k) { NamedNone(k); }
    while loaded < |tokens|
      invariant loaded <= |tokens| && forall i :: 0 <= i < loaded ==> InBounds(tokens[i])
      invariant cluster.Valid() && SameButSlots(old(cluster.nodes), cluster.nodes)
      invariant forall k :: 0 <= k < Slots ==>
        cluster.slots[k] == if Named(tokens[..loaded], k) && old(cluster.slots)[k].None? then Some(n) else old(cluster.slots)[k]
    {
      var token := tokens[loaded];
      BoundsOf(token);
      ghost var before := cluster.nodes;
      forall k: int ensures Named(tokens[..loaded + 1], k) <==> Named(tokens[..loaded], k) || NamedBy(token, k) { NamedSnoc(tokens, loaded, k); }
      if token == [] || token[0] != '[' {
        var ok := LoadRange(cluster, n, Start(token), Stop(token));
        SameButSlotsTrans(old(cluster.nodes), before, cluster.nodes);
        if !ok { return; }
      }
      loaded := loaded + 1;
    }
    assert tokens[..loaded] == tokens;
  }

  lemma NamedNone(k: int)
    ensures !Named([], k)
  {}

  lemma NamedSnoc(tokens: seq<string>, i: nat, k: int)
    requires i < |tokens|
    ensures Named(tokens[..i + 1], k) <==> Named(tokens[..i], k) || NamedBy(tokens[i], k)
  {
    hide NamedBy;
    var more := tokens[..i + 1];
    assert forall j :: 0 <= j < i ==> tokens[..i][j] == more[j];
    if Named(tokens[..i], k) {
      var j :| 0 <= j < i && NamedBy(tokens[..i][j], k);
      assert NamedBy(more[j], k);
    }
    if NamedBy(tokens[i], k) { assert NamedBy(more[i], k); }
  }

  /** When a token is in bounds. */
  lemma BoundsOf(token: string)
    ensures InBounds(token) <==> (token != [] && token[0] == '[') || (Start(token) <= Stop(token) ==> 0 <= Start(token) && Stop(token) < Slots)
  {
    hide Start, Stop;
    if (token == [] || token[0] != '[') && Start(token) <= Stop(token) {
      assert NamedBy(token, Start(token)) && NamedBy(token, Stop(token));
    }
  }

  /** A printed number is in bounds exactly when it is a slot. */
  lemma NumberInBounds(k: nat)
    ensures InBounds(Show(k)) <==> k < Slots
  {
    hide Start, Stop, InBounds;
    assert Token(Range(k, k)) == Show(k);
    TokenRange(Range(k, k));
    TokenShape(Range(k, k));
    BoundsOf(Show(k));
  }

  /** For example, this one is not. */
  lemma OutOfTable()
    ensures !InBounds("16384")
  {
    hide InBounds;
    assert Show(1) == "1";
    assert Show(16) == "16";
    assert Show(163) == "163";
    assert Show(1638) == "1638";
    assert Show(16384) == "16384";
    NumberInBounds(16384);
  }

  /** The tokens of maximal ranges name exactly the set bits. */
  lemma TokensName(bits: Bitmap, rs: seq<Range>)
    requires MaximalRanges(bits, rs)
    ensures forall i :: 0 <= i < |rs| ==> InBounds(Tokens(rs)[i])
    ensures forall k :: 0 <= k < Slots ==> (Named(Tokens(rs), k) <==> TestBit(bits, k))
  {
    hide TestBit, Token, Start, Stop;
    forall i | 0 <= i < |rs| ensures InBounds(Tokens(rs)[i]) && forall k: int :: NamedBy(Tokens(rs)[i], k) <==> rs[i].start <= k <= rs[i].stop {
      TokenRange(rs[i]);
      TokenShape(rs[i]);
    }
    hide NamedBy;
    forall k | 0 <= k < Slots ensures Named(Tokens(rs), k) <==> In(rs, k) {
      if In(rs, k) {
        var i :| 0 <= i < |rs| && rs[i].start <= k <= rs[i].stop;
        assert NamedBy(Tokens(rs)[i], k);
      }
    }
  }

  /** Printing a node's slots and loading the line where those slots are free gives the node exactly those slots. */
  method RoundTrip(cluster: Cluster, n: Id, bits: Bitmap)
    requires cluster.Valid() && n in cluster.nodes && forall k :: 0 <= k < Slots && TestBit(bits, k) ==> cluster.slots[k].None?
    modifies cluster`slots, cluster`nodes
    ensures cluster.Valid() && SameButSlots(old(cluster.nodes), cluster.nodes)
    ensures forall k :: 0 <= k < Slots ==> cluster.slots[k] == if TestBit(bits, k) then Some(n) else old(cluster.slots)[k]
    ensures old(cluster.nodes)[n].numslots == 0 ==> cluster.nodes[n].bits == bits
  {
    hide Agrees, Linked, Reported, Names, TestBit, Start, Stop, Named;
    var text := PrintSlots(bits);
    ghost var rs :| MaximalRanges(bits, rs) && text == Render(rs);
    WordsOfRender(rs);
    TokensName(bits, rs);
    NoSlots(cluster.slots, cluster.nodes, n);
    var loaded := LoadSlots(cluster, n, Words(text));
    assert Words(text)[..loaded] == Words(text);
    if old(cluster.nodes)[n].numslots == 0 {
      forall k | 0 <= k < Slots ensures TestBit(cluster.nodes[n].bits, k) <==> TestBit(bits, k) {
        OwnerBit(cluster.slots, cluster.nodes, n, k);
        assert old(cluster.slots)[k] in old(cluster.slots);
      }
      SameBits(cluster.nodes[n].bits, bits);
    }
  }

  /** Every table survives: printing the slots of all nodes, in any order, and loading them into a
      cluster that knows the same nodes and has no slots rebuilds the table. */
  method Reload(slots: Table, nodes: Nodes, cluster: Cluster)
    requires Agrees(slots, nodes)
    requires cluster.Valid() && cluster.nodes.Keys == nodes.Keys && forall k :: 0 <= k < Slots ==> cluster.slots[k].None?
    modifies cluster`slots, cluster`nodes
    ensures cluster.Valid() && cluster.slots == slots && SameButSlots(old(cluster.nodes), cluster.nodes)
  {
    hide Agrees, Linked, Reported, TestBit, SameButSlots;
    AgreesNames(slots, nodes);
    SameButSlotsSelf(cluster.nodes);
    var todo := nodes.Keys;
    while todo != {}
      invariant todo <= nodes.Keys
      invariant cluster.Valid() && SameButSlots(old(cluster.nodes), cluster.nodes)
      invariant forall k :: 0 <= k < Slots ==> cluster.slots[k] == if slots[k].Some? && slots[k].value !in todo then slots[k] else None
      decreases todo
    {
      Inhabited(todo);
      var n :| n in todo;
      todo := todo - {n};
      ghost var before := cluster.nodes;
      forall k | 0 <= k < Slots ensures TestBit(nodes[n].bits, k) <==> slots[k] == Some(n) { OwnerBit(slots, nodes, n, k); }
      SameButSlotsKeys(old(cluster.nodes), before);
      RoundTrip(cluster, n, nodes[n].bits);
      SameButSlotsTrans(old(cluster.nodes), before, cluster.nodes);
    }
  }
}
