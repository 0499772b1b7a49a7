/** What a built tree spells: the whole input, exactly when nothing that covers a part of it contains itself. */
module TreeSpelling {
  import opened Grammars
  import opened ChildTilings
  import opened ChartPlans
  import opened TreeBuilder

  /** A leaf literal covers what it matches. */
  ghost predicate LeafOK(w: seq<int>, n: PNode) {
    match n.lit
    case Null => n.from == n.to
    case T(ch) => n.from < |w| && n.to == n.from + 1 && w[n.from] == ch
    case NT(_) => false
  }

  /** The nodes tile the span of `n`, and leaves match the input. */
  ghost predicate Fills(w: seq<int>, n: PNode, pack: Pack) {
    && Contiguous(pack, n.from, n.to)
    && forall k :: 0 <= k < |pack| ==> pack[k].from <= pack[k].to && (pack[k].lit.NT? || LeafOK(w, pack[k]))
  }

  ghost predicate Filled(b: Plan, w: seq<int>, n: PNode) {
    && n.lit.NT? && n.from <= n.to <= |w| && b.packs(n) != []
    && forall k :: 0 <= k < |b.packs(n)| ==> Fills(w, n, b.packs(n)[k])
  }

  /** Every node has packs, they tile its span, and they lead to no other nodes. The plan of a finished chart is like
      this. */
  ghost predicate Grounded(b: Plan, all: set<PNode>, w: seq<int>) {
    Covers(b, all) && forall n :: n in all ==> Filled(b, w, n)
  }

  // ---- nodes that contain themselves

  ghost predicate Child(b: Plan, n: PNode, m: PNode) {
    m.lit.NT? && exists k :: 0 <= k < |b.packs(n)| && m in b.packs(n)[k]
  }

  ghost predicate Chain(b: Plan, s: seq<PNode>) {
    s != [] && forall i :: 0 <= i < |s| - 1 ==> Child(b, s[i], s[i + 1])
  }

  ghost predicate Reaches(b: Plan, n: PNode, m: PNode) {
    exists s :: Chain(b, s) && s[0] == n && s[|s| - 1] == m
  }

  ghost predicate ContainsItself(b: Plan, n: PNode) {
    exists m :: Child(b, n, m) && Reaches(b, m, n)
  }

  /** Below `root` there is a node that covers some input and contains itself. */
  ghost predicate Cyclic(b: Plan, root: PNode) {
    exists n :: Reaches(b, root, n) && n.from < n.to && ContainsItself(b, n)
  }

  /** While the nodes in `vis` are under construction, building `n` cuts off a node that covers some input. */
  ghost predicate CutIn(b: Plan, all: set<PNode>, vis: set<PNode>, n: PNode)
    requires Covers(b, all) && (n.lit.NT? ==> n in all)
    decreases |all - vis|
  {
    if !n.lit.NT? then false
    else if n in vis then n.from < n.to
    else
      OneLess(all, vis, n);
      exists m :: Child(b, n, m) && CutIn(b, all, vis + {n}, m)
  }

  lemma ChildBelongs(b: Plan, all: set<PNode>, n: PNode, m: PNode)
    requires Covers(b, all) && n in all && Child(b, n, m)
    ensures m in all
  {
  }

  lemma {:induction false} ChainBelongs(b: Plan, all: set<PNode>, s: seq<PNode>, i: nat)
    requires Covers(b, all) && Chain(b, s) && s[0] in all && i < |s|
    ensures s[i] in all
    decreases i
  {
    hide Child, Covers;
    if i > 0 {
      ChainBelongs(b, all, s, i - 1);
      assert Child(b, s[i - 1], s[i - 1 + 1]);
      ChildBelongs(b, all, s[i - 1], s[i]);
    }
  }

  lemma ChainRest(b: Plan, s: seq<PNode>, i: nat)
    requires Chain(b, s) && i < |s|
    ensures Chain(b, s[i..]) && s[i..][0] == s[i] && s[i..][|s| - i - 1] == s[|s| - 1]
  {
    hide Child;
    var r := s[i..];
    forall k | 0 <= k < |r| - 1 ensures Child(b, r[k], r[k + 1]) {
      assert Child(b, s[i + k], s[i + k + 1]);
    }
  }

  lemma ChainMore(b: Plan, s: seq<PNode>, m: PNode)
    requires Chain(b, s) && Child(b, s[|s| - 1], m)
    ensures Chain(b, s + [m])
  {
    hide Child;
    var r := s + [m];
    forall k | 0 <= k < |r| - 1 ensures Child(b, r[k], r[k + 1]) {
      if k < |s| - 1 {
        assert Child(b, s[k], s[k + 1]);
      }
    }
  }

  function Elements(s: seq<PNode>): set<PNode> {
    set x | x in s
  }

  lemma RepeatIsCycle(b: Plan, s: seq<PNode>, i: nat)
    requires Chain(b, s) && i < |s| - 1 && s[i] == s[|s| - 1] && s[i].from < s[i].to
    ensures Cyclic(b, s[0])
  {
    hide Child;
    var n := s[|s| - 1];
    assert Child(b, s[i], s[i + 1]);
    ChainRest(b, s, i + 1);
    assert Reaches(b, s[i + 1], n) && Reaches(b, s[0], n);
  }

  lemma CutStep(b: Plan, all: set<PNode>, vis: set<PNode>, n: PNode) returns (m: PNode)
    requires Covers(b, all) && n in all && n.lit.NT? && n !in vis && CutIn(b, all, vis, n)
    ensures Child(b, n, m) && m in all && m.lit.NT? && CutIn(b, all, vis + {n}, m)
  {
    hide Child, Covers;
    forall m | Child(b, n, m) ensures m in all && m.lit.NT? {
      ChildBelongs(b, all, n, m);
      ChildIsNT(b, n, m);
    }
    m :| Child(b, n, m) && CutIn(b, all, vis + {n}, m);
  }

  /** A cut found at `n`, below the path `s` from the root, is a node that contains itself. */
  lemma {:induction false} CutIsCycle(b: Plan, all: set<PNode>, s: seq<PNode>, n: PNode)
    requires Covers(b, all) && Chain(b, s + [n]) && n in all && n.lit.NT?
    requires CutIn(b, all, Elements(s), n)
    ensures Cyclic(b, (s + [n])[0])
    decreases |all - Elements(s)|
  {
    hide Child, Covers, Chain, Cyclic;
    var r := s + [n];
    if n in Elements(s) {
      var i :| 0 <= i < |s| && s[i] == n;
      RepeatIsCycle(b, r, i);
    } else {
      var m := CutStep(b, all, Elements(s), n);
      ChainMore(b, r, m);
      assert Elements(r) == Elements(s) + {n};
      OneLess(all, Elements(s), n);
      CutIsCycle(b, all, r, m);
      assert (r + [m])[0] == r[0];
    }
  }

  lemma ChildIsNT(b: Plan, n: PNode, m: PNode)
    requires Child(b, n, m)
    ensures m.lit.NT?
  {
  }

  lemma {:induction false} PackInside(w: seq<int>, n: PNode, pack: Pack, k: nat)
    requires Fills(w, n, pack) && k < |pack|
    ensures n.from <= pack[k].from
    decreases k
  {
    if k > 0 {
      PackInside(w, n, pack, k - 1);
      assert pack[k - 1].to == pack[k - 1 + 1].from;
    }
  }

  lemma {:induction false} PackInsideEnd(w: seq<int>, n: PNode, pack: Pack, k: nat)
    requires Fills(w, n, pack) && k < |pack|
    ensures pack[k].to <= n.to
    decreases |pack| - k
  {
    if k + 1 < |pack| {
      PackInsideEnd(w, n, pack, k + 1);
      assert pack[k].to == pack[k + 1].from;
    }
  }

  lemma ChildInside(b: Plan, all: set<PNode>, w: seq<int>, n: PNode, m: PNode)
    requires Grounded(b, all, w) && n in all && Child(b, n, m)
    ensures n.from <= m.from <= m.to <= n.to
  {
    hide Fills, Covers;
    assert Filled(b, w, n);
    var k :| 0 <= k < |b.packs(n)| && m in b.packs(n)[k];
    var pack := b.packs(n)[k];
    var i :| 0 <= i < |pack| && pack[i] == m;
    PackInside(w, n, pack, i);
    PackInsideEnd(w, n, pack, i);
    assert m in all && Filled(b, w, m) by {
      ChildBelongs(b, all, n, m);
    }
  }

  /** Along a chain spans shrink. */
  lemma {:induction false} ChainInside(b: Plan, all: set<PNode>, w: seq<int>, s: seq<PNode>, i: nat)
    requires Grounded(b, all, w) && Chain(b, s) && s[0] in all && i < |s|
    ensures s[i] in all && s[0].from <= s[i].from && s[i].to <= s[0].to
    decreases i
  {
    hide Child, Covers, Filled;
    ChainBelongs(b, all, s, i);
    if i > 0 {
      ChainInside(b, all, w, s, i - 1);
      assert Child(b, s[i - 1], s[i - 1 + 1]);
      ChildInside(b, all, w, s[i - 1], s[i]);
    }
  }

  /** So along a cycle they are all the same. */
  lemma CycleSpan(b: Plan, all: set<PNode>, w: seq<int>, s: seq<PNode>, i: nat)
    requires Grounded(b, all, w) && Chain(b, s) && s[0] in all && s[0] == s[|s| - 1] && i < |s|
    ensures s[i] in all && s[i].from == s[0].from && s[i].to == s[0].to
  {
    hide Child, Covers, Filled;
    ChainInside(b, all, w, s, i);
    ChainRest(b, s, i);
    ChainInside(b, all, w, s[i..], |s| - i - 1);
  }

  /** Going down without a repetition, a build without cuts arrives everywhere. */
  lemma {:induction false} WalkDown(b: Plan, all: set<PNode>, vis: set<PNode>, s: seq<PNode>)
    returns (below: set<PNode>)
    requires Covers(b, all) && Chain(b, s) && s[0] in all && (forall i :: 0 <= i < |s| ==> s[i].lit.NT? && s[i] !in vis)
    requires !CutIn(b, all, vis, s[0])
    ensures s[|s| - 1] in all && s[|s| - 1] !in below && !CutIn(b, all, below, s[|s| - 1])
    decreases |s|
  {
    hide Child, Covers;
    var i := LastPlace(s, s[0]);
    ChainRest(b, s, i);
    if i == |s| - 1 {
      below := vis;
    } else {
      assert Child(b, s[i], s[i + 1]);
      ChildBelongs(b, all, s[0], s[i + 1]);
      NoCutBelow(b, all, vis, s[0], s[i + 1]);
      ChainRest(b, s, i + 1);
      below := WalkDown(b, all, vis + {s[0]}, s[i + 1..]);
    }
  }

  lemma NoCutBelow(b: Plan, all: set<PNode>, vis: set<PNode>, n: PNode, m: PNode)
    requires Covers(b, all) && n in all && n.lit.NT? && n !in vis && !CutIn(b, all, vis, n) && Child(b, n, m)
    requires m in all
    ensures !CutIn(b, all, vis + {n}, m)
  {
    hide Child, Covers;
    OneLess(all, vis, n);
  }

  lemma {:induction false} LastPlace(s: seq<PNode>, n: PNode) returns (i: nat)
    requires n in s
    ensures i < |s| && s[i] == n && n !in s[i + 1..]
    decreases |s|
  {
    var last := |s| - 1;
    if s[last] == n {
      i := last;
    } else {
      i := LastPlace(s[..last], n);
      assert s[i + 1..] == s[..last][i + 1..] + [s[last]];
    }
  }

  /** But no build without cuts gets around a cycle of nodes that cover some input. */
  lemma {:induction false} NoWayAround(b: Plan, all: set<PNode>, vis: set<PNode>, s: seq<PNode>)
    requires Covers(b, all) && Chain(b, s) && |s| > 1
    requires (forall i :: 0 <= i < |s| ==> s[i].lit.NT? && s[i] in all && s[i].from < s[i].to)
    requires s[0] !in vis && s[|s| - 1] in vis + {s[0]}
    ensures CutIn(b, all, vis, s[0])
    decreases |s|
  {
    hide Child, Covers;
    if !CutIn(b, all, vis, s[0]) {
      assert Child(b, s[0], s[0 + 1]);
      NoCutBelow(b, all, vis, s[0], s[1]);
      ChainRest(b, s, 1);
      if s[1] !in vis + {s[0]} {
        NoWayAround(b, all, vis + {s[0]}, s[1..]);
      }
    }
  }

  /** The build of the root cuts something off exactly when a node that covers some input contains itself. */
  lemma CutsExactly(b: Plan, all: set<PNode>, w: seq<int>, root: PNode)
    requires Grounded(b, all, w) && root in all
    ensures CutIn(b, all, {}, root) <==> Cyclic(b, root)
  {
    hide Child, Covers, Filled, CutIn;
    AllNT(b, all, w);
    if CutIn(b, all, {}, root) {
      assert [] + [root] == [root] && Elements([]) == {};
      CutIsCycle(b, all, [], root);
    }
    if Cyclic(b, root) && !CutIn(b, all, {}, root) {
      var n :| Reaches(b, root, n) && n.from < n.to && ContainsItself(b, n);
      var s :| Chain(b, s) && s[0] == root && s[|s| - 1] == n;
      forall i | 0 <= i < |s| ensures s[i] in all {
        ChainBelongs(b, all, s, i);
      }
      var below := WalkDown(b, all, {}, s);
      CycleCuts(b, all, w, below, n);
    }
  }

  lemma AllNT(b: Plan, all: set<PNode>, w: seq<int>)
    requires Grounded(b, all, w)
    ensures forall n :: n in all ==> n.lit.NT?
  {
    forall n | n in all ensures n.lit.NT? {
      assert Filled(b, w, n);
    }
  }

  lemma CycleCuts(b: Plan, all: set<PNode>, w: seq<int>, vis: set<PNode>, n: PNode)
    requires Grounded(b, all, w) && n in all && n.from < n.to && ContainsItself(b, n) && n !in vis
    ensures CutIn(b, all, vis, n)
  {
    hide Child, Covers, Filled, CutIn;
    AllNT(b, all, w);
    var m :| Child(b, n, m) && Reaches(b, m, n);
    var s :| Chain(b, s) && s[0] == m && s[|s| - 1] == n;
    var r := [n] + s;
    forall k | 0 <= k < |r| - 1 ensures Child(b, r[k], r[k + 1]) {
      if k > 0 {
        assert Child(b, s[k - 1], s[k - 1 + 1]);
      }
    }
    forall i | 0 <= i < |r| ensures r[i] in all && r[i].from < r[i].to {
      CycleSpan(b, all, w, r, i);
    }
    NoWayAround(b, all, vis, r);
  }

  // ---- without cuts, the trees tile the span

  function Begin(t: Tree): nat {
    if t.Node? then t.at.from else t.from
  }

  function End(t: Tree): nat {
    if t.Node? then t.at.to else t.to
  }

  /** The trees follow on one another from `i` to `j`, and so do the children of each of them. */
  ghost predicate Row(w: seq<int>, ts: seq<Tree>, i: nat, j: nat)
    decreases ts, 1
  {
    if ts == [] then i == j else Begin(ts[0]) == i && Tiled(w, ts[0]) && Row(w, ts[1..], End(ts[0]), j)
  }

  ghost predicate Tiled(w: seq<int>, t: Tree)
    decreases t, 0
  {
    match t
    case Node(at, kids) => if at.lit.NT? then Row(w, kids, at.from, at.to) else kids == [] && LeafOK(w, at)
    case Amb(from, to, alts) =>
      alts != [] && forall k :: 0 <= k < |alts| ==> Begin(alts[k]) == from && End(alts[k]) == to && Tiled(w, alts[k])
  }

  lemma {:induction false} RowAppend(w: seq<int>, a: seq<Tree>, b: seq<Tree>, i: nat, k: nat, j: nat)
    requires Row(w, a, i, k) && Row(w, b, k, j)
    ensures Row(w, a + b, i, j)
    decreases |a|
  {
    if a == [] {
      assert a + b == b;
    } else {
      assert (a + b)[1..] == a[1..] + b;
      RowAppend(w, a[1..], b, End(a[0]), k, j);
    }
  }

  lemma SingleRow(w: seq<int>, t: Tree)
    requires Tiled(w, t)
    ensures Row(w, [t], Begin(t), End(t))
  {
  }

  ghost predicate NoCuts(b: Plan, all: set<PNode>, vis: set<PNode>, pack: Pack)
    requires Covers(b, all) && PackIn(all, pack)
  {
    forall k :: 0 <= k < |pack| ==> !CutIn(b, all, vis, pack[k])
  }

  lemma NoCutsInPacks(b: Plan, all: set<PNode>, w: seq<int>, vis: set<PNode>, n: PNode, k: nat)
    requires Grounded(b, all, w) && n in all && n !in vis && !CutIn(b, all, vis, n) && k < |b.packs(n)|
    ensures PackIn(all, b.packs(n)[k]) && NoCuts(b, all, vis + {n}, b.packs(n)[k]) && Fills(w, n, b.packs(n)[k])
  {
    hide Fills;
    assert Filled(b, w, n);
    var pack := b.packs(n)[k];
    forall i | 0 <= i < |pack| ensures !CutIn(b, all, vis + {n}, pack[i]) {
      if pack[i].lit.NT? {
        assert Child(b, n, pack[i]);
        NoCutBelow(b, all, vis, n, pack[i]);
      }
    }
  }

  /** A node gives trees that cover its span, one tree unless it is a helper. */
  lemma {:induction false} BuildCovers(b: Plan, all: set<PNode>, w: seq<int>, vis: set<PNode>, n: PNode)
    requires Grounded(b, all, w) && (if n.lit.NT? then n in all && !CutIn(b, all, vis, n) else LeafOK(w, n))
    ensures var out := Build(b, all, vis, n);
            && Row(w, out, n.from, n.to)
            && (!(n.lit.NT? && b.ebnf(n)) ==> |out| == 1 && Begin(out[0]) == n.from && End(out[0]) == n.to)
    decreases |all - vis|, 0, 0
  {
    hide Covers, Fills;
    if !n.lit.NT? {
      SingleRow(w, Leaf(n));
    } else if n in vis {
      assert Filled(b, w, n);
      SingleRow(w, Leaf(n));
    } else {
      var ps := b.packs(n);
      assert Filled(b, w, n);
      forall k | 0 <= k < |ps| ensures PackIn(all, ps[k]) && NoCuts(b, all, vis + {n}, ps[k]) && Fills(w, n, ps[k]) {
        NoCutsInPacks(b, all, w, vis, n, k);
      }
      OneLess(all, vis, n);
      NodeCovers(b, all, w, vis, n);
    }
  }

  lemma {:induction false} NodeCovers(b: Plan, all: set<PNode>, w: seq<int>, vis: set<PNode>, n: PNode)
    requires Grounded(b, all, w) && n in all && n.lit.NT? && n !in vis && b.packs(n) != []
    requires PacksIn(all, b.packs(n)) && |all - (vis + {n})| < |all - vis|
    requires forall k :: 0 <= k < |b.packs(n)| ==>
             NoCuts(b, all, vis + {n}, b.packs(n)[k]) && Fills(w, n, b.packs(n)[k])
    ensures var out := Build(b, all, vis, n);
            && Row(w, out, n.from, n.to)
            && (!b.ebnf(n) ==> |out| == 1 && Begin(out[0]) == n.from && End(out[0]) == n.to)
    decreases |all - (vis + {n})|, 3, 0
  {
    hide Covers, Fills, NoCuts, BuildAll, BuildEach, Filled;
    var ps := b.packs(n);
    if |ps| > 1 {
      EachCovers(b, all, w, vis + {n}, n, ps);
      SingleRow(w, Build(b, all, vis, n)[0]);
    } else {
      assert PackIn(all, ps[0]) && NoCuts(b, all, vis + {n}, ps[0]) && Fills(w, n, ps[0]);
      FillsFrom(w, n, ps[0]);
      AllCovers(b, all, w, vis + {n}, ps[0], n.from, n.to);
      SingleRow(w, Node(n, BuildAll(b, all, vis + {n}, ps[0])));
    }
  }

  /** What is left of a pack. */
  ghost predicate FillsRest(w: seq<int>, pack: Pack, i: nat, j: nat) {
    && Contiguous(pack, i, j)
    && forall k :: 0 <= k < |pack| ==> pack[k].from <= pack[k].to && (pack[k].lit.NT? || LeafOK(w, pack[k]))
  }

  lemma FillsFrom(w: seq<int>, n: PNode, pack: Pack)
    ensures Fills(w, n, pack) <==> FillsRest(w, pack, n.from, n.to)
  {
  }

  lemma FillsNext(w: seq<int>, pack: Pack, i: nat, j: nat)
    requires FillsRest(w, pack, i, j) && pack != []
    ensures pack[0].from == i && FillsRest(w, pack[1..], pack[0].to, j)
  {
    var r := pack[1..];
    if r != [] {
      assert pack[0].to == pack[0 + 1].from;
    }
    forall k | 0 <= k < |r| - 1 ensures r[k].to == r[k + 1].from {
      assert pack[k + 1].to == pack[k + 1 + 1].from;
    }
  }

  lemma {:induction false} AllCovers(b: Plan, all: set<PNode>, w: seq<int>, vis: set<PNode>, pack: Pack, i: nat, j: nat)
    requires Grounded(b, all, w) && PackIn(all, pack) && NoCuts(b, all, vis, pack) && FillsRest(w, pack, i, j)
    ensures Row(w, BuildAll(b, all, vis, pack), i, j)
    decreases |all - vis|, 1, |pack|
  {
    hide Covers, Filled, CutIn, Build;
    if pack != [] {
      FillsNext(w, pack, i, j);
      BuildCovers(b, all, w, vis, pack[0]);
      AllCovers(b, all, w, vis, pack[1..], pack[0].to, j);
      RowAppend(w, Build(b, all, vis, pack[0]), BuildAll(b, all, vis, pack[1..]), i, pack[0].to, j);
    }
  }

  lemma {:induction false} EachCovers(b: Plan, all: set<PNode>, w: seq<int>, vis: set<PNode>, n: PNode, ps: seq<Pack>)
    requires Grounded(b, all, w) && n.lit.NT? && PacksIn(all, ps)
    requires forall k :: 0 <= k < |ps| ==> NoCuts(b, all, vis, ps[k]) && Fills(w, n, ps[k])
    ensures var out := BuildEach(b, all, vis, n, ps);
            |out| == |ps| && forall k :: 0 <= k < |out| ==>
                Begin(out[k]) == n.from && End(out[k]) == n.to && Tiled(w, out[k])
    decreases |all - vis|, 2, |ps|
  {
    hide Covers, Filled, CutIn, BuildAll, NoCuts, Fills;
    if ps != [] {
      assert PackIn(all, ps[0]);
      FillsFrom(w, n, ps[0]);
      AllCovers(b, all, w, vis, ps[0], n.from, n.to);
      EachCovers(b, all, w, vis, n, ps[1..]);
    }
  }

  // ---- the leaves

  /** The characters of a tree's leaves; of a node of alternatives, those of the first. */
  function Text(t: Tree): seq<int>
    decreases t, 0
  {
    match t
    case Node(at, kids) => if at.lit.T? then [at.lit.c] else TextAll(kids)
    case Amb(_, _, alts) => if alts == [] then [] else Text(alts[0])
  }

  function TextAll(ts: seq<Tree>): seq<int>
    decreases ts, 1
  {
    if ts == [] then [] else Text(ts[0]) + TextAll(ts[1..])
  }

  /** A tiled tree spells its span. Every alternative is tiled over the same span, so all spell the same. */
  lemma {:induction false} TiledSpells(w: seq<int>, t: Tree)
    requires Tiled(w, t) && Begin(t) <= |w|
    ensures Begin(t) <= End(t) <= |w| && Text(t) == w[Begin(t)..End(t)]
    decreases t, 0
  {
    match t
    case Node(at, kids) =>
      if at.lit.NT? {
        RowSpells(w, kids, at.from, at.to);
      }
    case Amb(_, _, alts) =>
      TiledSpells(w, alts[0]);
  }

  lemma {:induction false} RowSpells(w: seq<int>, ts: seq<Tree>, i: nat, j: nat)
    requires Row(w, ts, i, j) && i <= |w|
    ensures i <= j <= |w| && TextAll(ts) == w[i..j]
    decreases ts, 1
  {
    if ts != [] {
      TiledSpells(w, ts[0]);
      RowSpells(w, ts[1..], End(ts[0]), j);
      assert w[i..j] == w[i..End(ts[0])] + w[End(ts[0])..j];
    }
  }

  /** When nothing that covers some input contains itself, the tree built for the whole input is tiled throughout, so
      it and each of its alternatives spell what they cover. */
  lemma RootSpells(b: Plan, all: set<PNode>, w: seq<int>, root: PNode)
    requires Grounded(b, all, w) && root in all && !b.ebnf(root) && root.from == 0 && root.to == |w| && !Cyclic(b, root)
    ensures var out := Build(b, all, {}, root); |out| == 1 && Tiled(w, out[0]) && Text(out[0]) == w
  {
    hide CutIn, Cyclic, Covers, Build;
    CutsExactly(b, all, w, root);
    assert Filled(b, w, root);
    BuildCovers(b, all, w, {}, root);
    RowHead(w, Build(b, all, {}, root), 0, |w|);
    TiledSpells(w, Build(b, all, {}, root)[0]);
  }

  lemma RowHead(w: seq<int>, ts: seq<Tree>, i: nat, j: nat)
    requires Row(w, ts, i, j) && ts != []
    ensures Tiled(w, ts[0])
  {
  }

  // ---- with cuts, leaves are missing

  /** Only the first pack of each node. */
  ghost function Leading(b: Plan): Plan {
    Plan(n => if b.packs(n) == [] then [] else [b.packs(n)[0]], b.ebnf)
  }

  lemma TextMore(a: seq<Tree>, b: seq<Tree>)
    ensures TextAll(a + b) == TextAll(a) + TextAll(b)
    decreases |a|
  {
    if a == [] {
      assert a + b == b;
    } else {
      assert (a + b)[1..] == a[1..] + b;
      TextMore(a[1..], b);
    }
  }

  lemma LeadingGrounded(b: Plan, all: set<PNode>, w: seq<int>)
    requires Grounded(b, all, w)
    ensures Grounded(Leading(b), all, w)
  {
    hide Fills;
    forall n | n in all ensures Filled(Leading(b), w, n) {
      assert Filled(b, w, n);
    }
  }

  /** The leaves read from a tree are those of the first alternatives. */
  lemma {:induction false} LeadingText(b: Plan, all: set<PNode>, vis: set<PNode>, n: PNode)
    requires Covers(b, all) && Covers(Leading(b), all) && (n.lit.NT? ==> n in all)
    ensures TextAll(Build(b, all, vis, n)) == TextAll(Build(Leading(b), all, vis, n))
    decreases |all - vis|, 0, 0
  {
    if !Bare(b, vis, n) {
      var ps := b.packs(n);
      OneLess(all, vis, n);
      assert PacksIn(all, ps) && PackIn(all, ps[0]);
      LeadingTextAll(b, all, vis + {n}, ps[0]);
      NodeText(b, all, vis, n);
      NodeText(Leading(b), all, vis, n);
    }
  }

  lemma {:induction false} LeadingTextAll(b: Plan, all: set<PNode>, vis: set<PNode>, pack: Pack)
    requires Covers(b, all) && Covers(Leading(b), all) && PackIn(all, pack)
    ensures TextAll(BuildAll(b, all, vis, pack)) == TextAll(BuildAll(Leading(b), all, vis, pack))
    decreases |all - vis|, 1, |pack|
  {
    hide Covers, Build, Leading;
    if pack != [] {
      LeadingText(b, all, vis, pack[0]);
      LeadingTextAll(b, all, vis, pack[1..]);
      TextMore(Build(b, all, vis, pack[0]), BuildAll(b, all, vis, pack[1..]));
      TextMore(Build(Leading(b), all, vis, pack[0]), BuildAll(Leading(b), all, vis, pack[1..]));
    }
  }

  lemma {:induction false} NodeText(b: Plan, all: set<PNode>, vis: set<PNode>, n: PNode)
    requires Covers(b, all) && n in all && !Bare(b, vis, n)
    ensures PackIn(all, b.packs(n)[0])
    ensures TextAll(Build(b, all, vis, n)) == TextAll(BuildAll(b, all, vis + {n}, b.packs(n)[0]))
  {
    hide BuildAll;
    var ps := b.packs(n);
    OneLess(all, vis, n);
    assert PacksIn(all, ps) && PackIn(all, ps[0]);
    var kids := BuildAll(b, all, vis + {n}, ps[0]);
    assert Text(Node(n, kids)) == TextAll(kids);
    if |ps| > 1 {
      var alts := BuildEach(b, all, vis + {n}, n, ps);
      assert alts[0] == Node(n, kids);
      OneText(Amb(n.from, n.to, alts));
    } else {
      OneText(Node(n, kids));
    }
  }

  lemma OneText(t: Tree)
    ensures TextAll([t]) == Text(t)
  {
    assert [t][1..] == [];
    assert Text(t) + [] == Text(t);
  }

  ghost predicate Single(b: Plan, all: set<PNode>) {
    forall n :: n in all ==> |b.packs(n)| == 1
  }

  /** A node's leaves are at most as many as its span is long, and fewer when something is cut off. */
  lemma {:induction false} CutsFallShort(b: Plan, all: set<PNode>, w: seq<int>, vis: set<PNode>, n: PNode)
    requires Grounded(b, all, w) && Single(b, all) && n.from <= n.to && (if n.lit.NT? then n in all else LeafOK(w, n))
    ensures |TextAll(Build(b, all, vis, n))| <= n.to - n.from
    ensures CutIn(b, all, vis, n) ==> |TextAll(Build(b, all, vis, n))| < n.to - n.from
    decreases |all - vis|, 0, 0
  {
    hide Covers, Fills;
    if !n.lit.NT? || n in vis {
      OneText(Leaf(n));
    } else {
      assert Filled(b, w, n) && |b.packs(n)| == 1;
      var pack := b.packs(n)[0];
      OneLess(all, vis, n);
      NodeText(b, all, vis, n);
      FillsFrom(w, n, pack);
      AllFallShort(b, all, w, vis + {n}, pack, n.from, n.to);
      if CutIn(b, all, vis, n) {
        var m :| Child(b, n, m) && CutIn(b, all, vis + {n}, m);
        var k :| 0 <= k < |pack| && pack[k] == m;
        assert !NoCuts(b, all, vis + {n}, pack);
      }
    }
  }

  lemma {:induction false} AllFallShort(b: Plan, all: set<PNode>, w: seq<int>, vis: set<PNode>, pack: Pack, i: nat,
          j: nat)
    requires Grounded(b, all, w) && Single(b, all) && PackIn(all, pack) && FillsRest(w, pack, i, j)
    ensures i <= j && |TextAll(BuildAll(b, all, vis, pack))| <= j - i
    ensures !NoCuts(b, all, vis, pack) ==> |TextAll(BuildAll(b, all, vis, pack))| < j - i
    decreases |all - vis|, 1, |pack|
  {
    hide Covers, Filled, CutIn, Build;
    if pack != [] {
      FillsNext(w, pack, i, j);
      CutsFallShort(b, all, w, vis, pack[0]);
      AllFallShort(b, all, w, vis, pack[1..], pack[0].to, j);
      TextMore(Build(b, all, vis, pack[0]), BuildAll(b, all, vis, pack[1..]));
      if !NoCuts(b, all, vis, pack) {
        var k :| 0 <= k < |pack| && CutIn(b, all, vis, pack[k]);
        if k > 0 {
          assert pack[1..][k - 1] == pack[k];
        }
      }
    }
  }

  /** The leaves read from the tree of the whole input are the input exactly when no node that covers some input
      contains itself by way of first packs. */
  lemma SpellsExactly(b: Plan, all: set<PNode>, w: seq<int>, root: PNode)
    requires Grounded(b, all, w) && root in all && !b.ebnf(root) && root.from == 0 && root.to == |w|
    ensures var out := Build(b, all, {}, root); |out| == 1 && (Text(out[0]) == w <==> !Cyclic(Leading(b), root))
  {
    hide CutIn, Cyclic, Covers, Build, BuildAll, Fills;
    var one := Leading(b);
    assert Filled(b, w, root);
    LeadingGrounded(b, all, w);
    LeadingText(b, all, {}, root);
    OneTree(b, all, root);
    OneTree(one, all, root);
    OneText(Build(b, all, {}, root)[0]);
    OneText(Build(one, all, {}, root)[0]);
    LeadingSingle(b, all, w);
    if Cyclic(one, root) {
      CutsExactly(one, all, w, root);
      CutsFallShort(one, all, w, {}, root);
    } else {
      RootSpells(one, all, w, root);
    }
  }

  lemma LeadingSingle(b: Plan, all: set<PNode>, w: seq<int>)
    requires Grounded(b, all, w)
    ensures Single(Leading(b), all)
  {
    hide Fills;
    forall n | n in all ensures |Leading(b).packs(n)| == 1 {
      assert Filled(b, w, n);
    }
  }

  lemma OneTree(b: Plan, all: set<PNode>, root: PNode)
    requires Covers(b, all) && root in all && root.lit.NT? && !b.ebnf(root)
    ensures |Build(b, all, {}, root)| == 1
  {
    hide BuildAll, BuildEach;
  }

  /** Where disambiguation is allowed everywhere, first packs are all there are. */
  lemma SingleLeads(b: Plan, all: set<PNode>, root: PNode)
    requires Covers(b, all) && Covers(Leading(b), all) && Single(b, all) && root in all
    ensures Cyclic(Leading(b), root) <==> Cyclic(b, root)
  {
    hide Covers;
    var one := Leading(b);
    forall n, m | n in all ensures Child(b, n, m) <==> Child(one, n, m) {
      assert |b.packs(n)| == 1;
      assert one.packs(n) == b.packs(n);
    }
    SameChains(b, one, all, root);
    SameChains(one, b, all, root);
  }

  lemma SameChains(a: Plan, b: Plan, all: set<PNode>, root: PNode)
    requires Covers(a, all) && Covers(b, all) && root in all
    requires forall n, m :: n in all ==> (Child(a, n, m) <==> Child(b, n, m))
    ensures Cyclic(a, root) ==> Cyclic(b, root)
  {
    hide Covers, Child;
    forall n, m | n in all && Reaches(a, n, m) ensures Reaches(b, n, m) && m in all {
      var s :| Chain(a, s) && s[0] == n && s[|s| - 1] == m;
      forall i | 0 <= i < |s| ensures s[i] in all {
        ChainBelongs(a, all, s, i);
      }
      assert Chain(b, s);
    }
    if Cyclic(a, root) {
      var n :| Reaches(a, root, n) && n.from < n.to && ContainsItself(a, n);
      var m :| Child(a, n, m) && Reaches(a, m, n);
      ChildBelongs(a, all, n, m);
      assert Child(b, n, m) && Reaches(b, m, n);
    }
  }
}
