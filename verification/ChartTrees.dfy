/** From a finished chart to a tree: the chart's own plan always tiles, so only a cycle can lose a part of the input. */
module ChartTrees {
  import opened Options
  import opened Grammars
  import opened EarleyItems
  import opened EarleyChart
  import opened EarleyParser
  import opened ChildTilings
  import opened TilingMeaning
  import opened Disambiguation
  import opened ChartPlans
  import opened TreeBuilder
  import opened TreeSpelling

  // ---- the nodes of a chart

  /** The nodes a chart completes. */
  ghost function Spanned(c: Chart): set<PNode> {
    set k, x | 0 <= k < |c.S| && x in c.S[k] && x.prod < |c.G| && x.dot == |c.G[x.prod].body| ::
      PNode(NT(c.G[x.prod].head), x.from, k)
  }

  lemma SpanIsNode(c: Chart, n: PNode)
    requires n.lit.NT?
    ensures n in Spanned(c) <==> SpanIn(c, n.lit.n, n.from, n.to)
  {
    if SpanIn(c, n.lit.n, n.from, n.to) {
      var x :| x in c.S[n.to] && Spans(c, x, n.lit.n) && x.from == n.from;
    }
  }

  lemma PackIsTiling(o: Request, n: PNode, k: nat)
    requires ChartOK(o.c) && k < |PacksOf(o, n)|
    ensures exists p: nat :: TilesBy(o.c, n, p, PacksOf(o, n)[k])
  {
    hide TilesBy, NodePacks, ChartOK, Precedes;
    NodePacksExact(o.c, n);
    var r := PacksOf(o, n)[k];
    if o.allowed(n) {
      assert Chosen(o.c, n, r);
    } else {
      assert r in NodePacks(o.c, n);
    }
  }

  /** Packs lead from any node to nodes the chart completes. */
  lemma PackWithin(o: Request, n: PNode, k: nat)
    requires ChartOK(o.c) && k < |PacksOf(o, n)|
    ensures PackIn(Spanned(o.c), PacksOf(o, n)[k])
  {
    hide PacksOf, ChartOK, Spanned;
    PackIsTiling(o, n, k);
    var pack := PacksOf(o, n)[k];
    var p: nat :| TilesBy(o.c, n, p, pack);
    forall m | 0 <= m < |pack| && pack[m].lit.NT? ensures pack[m] in Spanned(o.c) {
      assert ChildOK(o.c, o.c.G[p].body[m], pack[m]);
      SpanIsNode(o.c, pack[m]);
    }
  }

  lemma ChartCovers(o: Request, all: set<PNode>)
    requires ChartOK(o.c) && Spanned(o.c) <= all
    ensures Covers(PlanOf(o), all)
  {
    hide PacksOf, ChartOK, Spanned;
    forall n, k, m | n in all && 0 <= k < |PlanOf(o).packs(n)| && 0 <= m < |PlanOf(o).packs(n)[k]|
                     && PlanOf(o).packs(n)[k][m].lit.NT?
      ensures PlanOf(o).packs(n)[k][m] in all
    {
      PackWithin(o, n, k);
    }
  }

  // ---- a finished chart has packs for each of its nodes

  lemma ClassPack(c: Chart, n: PNode, p: nat, ch: int)
    requires p < |c.G| && c.G[p].body == [T(ch)] && n.lit == NT(c.G[p].head)
    requires n.to < |c.S| && Item(n.to, p, n.from, 1) in c.S[n.to]
    requires n.to == n.from + 1 && n.from < |c.w| && c.w[n.from] == ch
    ensures HasPack(c, n, p)
  {
    var pack := [PNode(T(ch), n.from, n.to)];
    assert ChildOK(c, c.G[p].body[0], pack[0]);
    assert TilesBy(c, n, p, pack);
  }

  lemma CompletedHasPack(c: Problem, st: State, k: nat, x: Item)
    requires Exact(c, st) && k < |st.S| && x in st.S[k] && x.prod < |st.G| && x.dot == |st.G[x.prod].body|
    ensures k <= |c.w| && x.at == k && x.from <= k
    ensures HasPack(ChartOf(c, st), PNode(NT(st.G[x.prod].head), x.from, k), x.prod)
  {
    hide Reach, Derives, Live;
    var n := PNode(NT(st.G[x.prod].head), x.from, k);
    assert x in Items(st, k);
    if Source(c, x) {
      assert st.G[x.prod] == c.g.prods[x.prod];
      ReachIsSound(c.g, c.w, c.eof, true, x);
      var pack := CompletedHasChildren(c, st, x);
      assert TilesBy(ChartOf(c, st), n, x.prod, pack);
    } else {
      ClassPack(ChartOf(c, st), n, x.prod, c.w[x.from]);
    }
  }

  lemma PacksFound(o: Request, n: PNode, p: nat)
    requires ChartOK(o.c) && HasPack(o.c, n, p)
    ensures PacksOf(o, n) != []
  {
    hide TilesBy, NodePacks, ChartOK, Chosen;
    if o.allowed(n) {
      ChosenExists(o.c, n, p);
    } else {
      NodePacksExact(o.c, n);
      var pack :| TilesBy(o.c, n, p, pack);
      assert pack in NodePacks(o.c, n);
    }
  }

  lemma TilingFills(c: Chart, n: PNode, p: nat, pack: Pack)
    requires ChartOK(c) && TilesBy(c, n, p, pack)
    ensures Fills(c.w, n, pack)
  {
    forall k | 0 <= k < |pack| ensures pack[k].from <= pack[k].to && (pack[k].lit.NT? || LeafOK(c.w, pack[k])) {
      TilesForwards(c, c.G[p].body, pack, n.from, n.to, k);
      assert ChildOK(c, c.G[p].body[k], pack[k]);
    }
  }

  lemma NodeFilled(c: Problem, st: State, o: Request, n: PNode)
    requires Exact(c, st) && o.c == ChartOf(c, st) && n in Spanned(o.c)
    ensures Filled(PlanOf(o), c.w, n)
  {
    hide Exact, PacksOf, ChartOK, Fills, TilesBy, HasPack;
    var k, x :| 0 <= k < |st.S| && x in st.S[k] && x.prod < |st.G| && x.dot == |st.G[x.prod].body|
                && n == PNode(NT(st.G[x.prod].head), x.from, k);
    ExactIsChartOK(c, st);
    CompletedHasPack(c, st, k, x);
    PacksFound(o, n, x.prod);
    forall i | 0 <= i < |PacksOf(o, n)| ensures Fills(c.w, n, PacksOf(o, n)[i]) {
      PackIsTiling(o, n, i);
      var p: nat :| TilesBy(o.c, n, p, PacksOf(o, n)[i]);
      TilingFills(o.c, n, p, PacksOf(o, n)[i]);
    }
  }

  /** Whatever is disambiguated: every node of a finished chart has packs, and they tile its span with leaves that
      match the input. */
  lemma ChartGrounded(c: Problem, st: State, o: Request)
    requires Exact(c, st) && o.c == ChartOf(c, st)
    ensures Grounded(PlanOf(o), Spanned(o.c), c.w)
  {
    hide Exact, Spanned, Filled, Covers, PlanOf;
    ExactIsChartOK(c, st);
    ChartCovers(o, Spanned(o.c));
    forall n | n in Spanned(o.c) ensures Filled(PlanOf(o), c.w, n) {
      NodeFilled(c, st, o, n);
    }
  }

  lemma AllowedIsSingle(c: Problem, st: State, o: Request)
    requires Exact(c, st) && o.c == ChartOf(c, st) && forall n :: o.allowed(n)
    ensures Single(PlanOf(o), Spanned(o.c))
  {
    hide Exact, Spanned, Chosen;
    forall n | n in Spanned(o.c) ensures |PlanOf(o).packs(n)| == 1 {
      NodeFilled(c, st, o, n);
    }
  }

  // ---- nothing contains itself unless the grammar goes in a circle

  /** `a` has a production that is `b` and literals that derive the empty string. */
  ghost predicate UnitStep(g: Grammar, a: nat, b: nat) {
    exists p, k :: 0 <= p < |g.prods| && g.prods[p].head == a && 0 <= k < |g.prods[p].body|
        && g.prods[p].body[k] == NT(b)
                   && forall i :: 0 <= i < |g.prods[p].body| && i != k ==> NullableLit(g, g.prods[p].body[i])
  }

  ghost predicate Circle(g: Grammar, s: seq<nat>) {
    |s| > 1 && s[0] == s[|s| - 1] && forall i :: 0 <= i < |s| - 1 ==> UnitStep(g, s[i], s[i + 1])
  }

  ghost predicate Circular(g: Grammar) {
    exists s :: Circle(g, s)
  }

  lemma {:induction false} PackOrder(w: seq<int>, n: PNode, pack: Pack, i: nat, j: nat)
    requires Fills(w, n, pack) && i < j < |pack|
    ensures pack[i].to <= pack[j].from
    decreases j
  {
    assert pack[j - 1].to == pack[j - 1 + 1].from;
    if i < j - 1 {
      PackOrder(w, n, pack, i, j - 1);
    }
  }

  /** Beside a child with the whole span the others are empty. */
  lemma BesideIsEmpty(w: seq<int>, n: PNode, pack: Pack, i: nat, j: nat)
    requires Fills(w, n, pack) && i < |pack| && j < |pack| && i != j && pack[j].from == n.from && pack[j].to == n.to
    ensures pack[i].from == pack[i].to
  {
    PackInside(w, n, pack, i);
    PackInsideEnd(w, n, pack, i);
    if i < j {
      PackOrder(w, n, pack, i, j);
    } else {
      PackOrder(w, n, pack, j, i);
    }
  }

  lemma EmptyChildIsNullable(c: Problem, st: State, l: Lit, d: PNode)
    requires Exact(c, st) && ChildOK(ChartOf(c, st), l, d) && d.from == d.to
    ensures NullableLit(c.g, l)
  {
    hide Exact, Live;
    if l.NT? {
      SpanIsDerived(c, st, l.n, d.from, d.to);
      var h :| LitIn(Live(c.g), c.w, h, l, d.from, d.to);
      EmptyIsNullable(Live(c.g), c.w, h, l, d.from);
      SameNullables(c.g, l.n);
    }
  }

  lemma ClassHasNoChildren(c: Problem, st: State, n: PNode, p: nat, pack: Pack)
    requires Exact(c, st) && TilesBy(ChartOf(c, st), n, p, pack) && p >= |c.g.prods|
    ensures forall k :: 0 <= k < |pack| ==> pack[k].lit.T?
  {
    hide Reach;
    var x := Item(n.to, p, n.from, |st.G[p].body|);
    assert x in Items(st, n.to) && !Source(c, x);
    forall k | 0 <= k < |pack| ensures pack[k].lit.T? {
      assert ChildOK(ChartOf(c, st), st.G[p].body[k], pack[k]);
    }
  }

  /** A child with the whole span of its parent is a step of the grammar. */
  lemma SameSpanStep(c: Problem, st: State, o: Request, n: PNode, m: PNode)
    requires Exact(c, st) && o.c == ChartOf(c, st) && n.lit.NT? && Child(PlanOf(o), n, m) && m.from == n.from
    requires m.to == n.to
    ensures m.lit.NT? && UnitStep(c.g, n.lit.n, m.lit.n)
  {
    hide Exact, PacksOf, ChartOK, Fills, NullableLit;
    ExactIsChartOK(c, st);
    var k :| 0 <= k < |PacksOf(o, n)| && m in PacksOf(o, n)[k];
    var pack := PacksOf(o, n)[k];
    PackIsTiling(o, n, k);
    var p: nat :| TilesBy(o.c, n, p, pack);
    TilingFills(o.c, n, p, pack);
    var j :| 0 <= j < |pack| && pack[j] == m;
    if p >= |c.g.prods| {
      ClassHasNoChildren(c, st, n, p, pack);
    } else {
      SourceBody(c, st, p);
      var body := c.g.prods[p].body;
      assert ChildOK(o.c, body[j], pack[j]);
      forall i | 0 <= i < |body| && i != j ensures NullableLit(c.g, body[i]) {
        BesideIsEmpty(c.w, n, pack, i, j);
        assert ChildOK(o.c, body[i], pack[i]);
        EmptyChildIsNullable(c, st, body[i], pack[i]);
      }
      assert c.g.prods[p].body[j] == NT(m.lit.n);
    }
  }

  lemma SourceBody(c: Problem, st: State, p: nat)
    requires Exact(c, st) && p < |c.g.prods|
    ensures p < |st.G| && st.G[p] == c.g.prods[p]
  {
    assert st.G[..|c.g.prods|][p] == st.G[p];
  }

  /** A node that contains itself shows a circle of the grammar. */
  lemma CyclicIsCircular(c: Problem, st: State, o: Request, root: PNode)
    requires Exact(c, st) && o.c == ChartOf(c, st) && root in Spanned(o.c) && Cyclic(PlanOf(o), root)
    ensures Circular(c.g)
  {
    hide Exact, PacksOf, PlanOf, Child, Spanned, Filled, Covers, UnitStep;
    var b, all := PlanOf(o), Spanned(o.c);
    ChartGrounded(c, st, o);
    AllNT(b, all, c.w);
    var n :| Reaches(b, root, n) && n.from < n.to && ContainsItself(b, n);
    var down :| Chain(b, down) && down[0] == root && down[|down| - 1] == n;
    ChainBelongs(b, all, down, |down| - 1);
    var m :| Child(b, n, m) && Reaches(b, m, n);
    var s :| Chain(b, s) && s[0] == m && s[|s| - 1] == n;
    var r := [n] + s;
    forall k | 0 <= k < |r| - 1 ensures Child(b, r[k], r[k + 1]) {
      if k > 0 {
        assert Child(b, s[k - 1], s[k - 1 + 1]);
      }
    }
    forall i | 0 <= i < |r| ensures r[i] in all && r[i].from == n.from && r[i].to == n.to {
      CycleSpan(b, all, c.w, r, i);
    }
    var names := seq(|r|, i requires 0 <= i < |r| => r[i].lit.n);
    forall i | 0 <= i < |names| - 1 ensures UnitStep(c.g, names[i], names[i + 1]) {
      assert Child(b, r[i], r[i + 1]);
      SameSpanStep(c, st, o, r[i], r[i + 1]);
    }
    assert Circle(c.g, names);
  }

  // ---- the tree of a parse

  function RootOf(g: Grammar, w: seq<int>): PNode {
    PNode(NT(g.start), 0, |w|)
  }

  /** The start symbol's node is in the chart exactly when the start symbol derives the input. */
  lemma RootInChart(c: Problem, st: State)
    requires Exact(c, st)
    ensures RootOf(c.g, c.w) in Spanned(ChartOf(c, st)) <==> Derives(Live(c.g), c.w, NT(c.g.start), 0, |c.w|)
  {
    hide Derives, Reach, Live, Spanned;
    SpanIsNode(ChartOf(c, st), RootOf(c.g, c.w));
    if SpanIn(ChartOf(c, st), c.g.start, 0, |c.w|) {
      SpanIsDerived(c, st, c.g.start, 0, |c.w|);
    }
    if Derives(Live(c.g), c.w, NT(c.g.start), 0, |c.w|) {
      DerivedIsAccepted(c.g, c.w, c.eof, true);
      var p :| 0 <= p < |c.g.prods| && c.g.prods[p].head == c.g.start
          && Reach(c.g, c.w, c.eof, true, WholeItem(c.g, c.w, p));
      var x := WholeItem(c.g, c.w, p);
      assert x in Items(st, |c.w|) && st.G[p] == c.g.prods[p];
      assert x in st.S[|c.w|] && Spans(ChartOf(c, st), x, c.g.start);
    }
  }

  /** What the tree of a finished chart spells. */
  ghost predicate TreeMeans(c: Problem, o: Request, r: Option<Tree>) {
    var root := RootOf(c.g, c.w);
    if !Derives(Live(c.g), c.w, NT(c.g.start), 0, |c.w|) then r == Some(Leaf(root))
    else
      && r.Some?
      && (Text(r.value) == c.w <==> !Cyclic(Leading(PlanOf(o)), root))
      && (!Cyclic(PlanOf(o), root) ==> Tiled(c.w, r.value) && Text(r.value) == c.w)
      && (!Circular(c.g) ==> Tiled(c.w, r.value) && Text(r.value) == c.w)
      && ((forall n :: o.allowed(n)) ==> (Text(r.value) == c.w <==> !Cyclic(PlanOf(o), root)))
  }

  /** The tree is the first that the recursion gives for the root. */
  ghost predicate Built(c: Problem, o: Request, r: Option<Tree>) {
    var root := RootOf(c.g, c.w);
    var all := Spanned(o.c) + {root};
    Covers(PlanOf(o), all) && var out := Build(PlanOf(o), all, {}, root); r == if out == [] then None else Some(out[0])
  }

  /** Every node stands over the parts of its packs, helpers dissolved; no helper is left but as alternatives. */
  ghost predicate TreeShaped(c: Problem, o: Request, r: Option<Tree>) {
    var root := RootOf(c.g, c.w);
    var all := Spanned(o.c) + {root};
    Covers(PlanOf(o), all) && r.Some? && Shows(PlanOf(o), all, {}, root, r.value) && NoHelpers(o.ebnf, r.value)
  }

  lemma ChartTreeMeans(c: Problem, st: State, o: Request, r: Option<Tree>)
    requires Exact(c, st) && o.c == ChartOf(c, st) && !o.ebnf(RootOf(c.g, c.w)) && Built(c, o, r)
    ensures TreeMeans(c, o, r)
  {
    hide Exact, Spanned, Derives, Live, Cyclic, Circular, Covers, Build, Tiled, Text, Single, PacksOf, Leading;
    var root := RootOf(c.g, c.w);
    RootInChart(c, st);
    if root in Spanned(o.c) {
      assert Spanned(o.c) + {root} == Spanned(o.c);
      ChartGrounded(c, st, o);
      SpellsExactly(PlanOf(o), Spanned(o.c), c.w, root);
      if !Cyclic(PlanOf(o), root) {
        RootSpells(PlanOf(o), Spanned(o.c), c.w, root);
      } else {
        CyclicIsCircular(c, st, o, root);
      }
      if forall n :: o.allowed(n) {
        AllowedIsSingle(c, st, o);
        LeadingGrounded(PlanOf(o), Spanned(o.c), c.w);
        SingleLeads(PlanOf(o), Spanned(o.c), root);
      }
    } else {
      ExactIsChartOK(c, st);
      PacksMeanNode(o, root);
      BareBuild(PlanOf(o), Spanned(o.c) + {root}, {}, root);
    }
  }

  lemma TiledIsNode(c: Chart, n: PNode, p: nat, pack: Pack)
    requires TilesBy(c, n, p, pack)
    ensures n in Spanned(c)
  {
    hide Tiles;
    var x := Item(n.to, p, n.from, |c.G[p].body|);
    assert x in c.S[n.to] && n == PNode(NT(c.G[x.prod].head), x.from, n.to);
  }

  lemma PacksMeanNode(o: Request, n: PNode)
    requires ChartOK(o.c)
    ensures PacksOf(o, n) != [] ==> n in Spanned(o.c)
  {
    hide PacksOf, ChartOK, Spanned;
    if PacksOf(o, n) != [] {
      PackIsTiling(o, n, 0);
      var p: nat :| TilesBy(o.c, n, p, PacksOf(o, n)[0]);
      TiledIsNode(o.c, n, p, PacksOf(o, n)[0]);
    }
  }

  /** The tree of what a parser has read. */
  method BuildBintree(p: Parser, hash: PNode -> int, allowed: PNode -> bool, ebnf: PNode -> bool)
    returns (r: Option<Tree>)
    requires p.Valid() && ChartExact(p.P(), p.Now()) && ClassesExact(p.P(), p.Now()) && |p.w| < |p.S|
    requires |p.w| < SIZE_MAX && |p.G| <= SIZE_MAX
    ensures var o := Request(Chart(p.G, p.S, p.w), hash, allowed, ebnf);
            Built(p.P(), o, r) && (!ebnf(RootOf(p.g, p.w)) ==> TreeMeans(p.P(), o, r) && TreeShaped(p.P(), o, r))
  {
    hide ChartExact, ClassesExact, GrammarOK, NullablesExact, Spanned, TreeMeans, PacksOf, Covers, ChartOK, Shows,
      NoHelpers, Build;
    var o := Request(Chart(p.G, p.S, p.w), hash, allowed, ebnf);
    var root := RootOf(p.g, p.w);
    ghost var c, st := p.P(), p.Now();
    ExactIsChartOK(c, st);
    ghost var all := Spanned(o.c) + {root};
    ChartCovers(o, all);
    forall n | n in all ensures n.to <= |p.w| {
      if n != root {
        NodeFilled(c, st, o, n);
      }
    }
    var b := new Builder(o, all);
    r := b.BuildTree(root);
    if !ebnf(root) {
      ChartTreeMeans(c, st, o, r);
    }
  }

  // ---- a cycle on a real input

  function SelfGrammar(a: int): Grammar {
    Grammar([Prod(0, [NT(0)]), Prod(0, [T(a)])], map[], 0)
  }

  lemma SelfReached(a: int, eof: int)
    ensures Reach(SelfGrammar(a), [a], eof, true, Item(1, 0, 0, 1))
  {
    hide Reach;
    var g, w := SelfGrammar(a), [a];
    ReachInit(g, w, eof, true, 0);
    ReachInit(g, w, eof, true, 1);
    ReachScan(g, w, eof, true, Item(0, 1, 0, 0));
    ReachComplete(g, w, eof, true, Item(0, 0, 0, 0), Item(1, 1, 0, 1));
  }

  lemma SelfChosen(c: Problem, st: State, n: PNode)
    requires Exact(c, st) && |c.w| == 1 && c.g == SelfGrammar(c.w[0]) && n == PNode(NT(0), 0, 1)
    ensures Chosen(ChartOf(c, st), n, [n])
  {
    hide Reach, Precedes;
    var h, x := ChartOf(c, st), Item(1, 0, 0, 1);
    SelfReached(c.w[0], c.eof);
    assert c.w == [c.w[0]];
    assert Source(c, x) && x in Items(st, 1);
    assert st.G[0] == c.g.prods[0];
    assert x in st.S[1] && Spans(h, x, 0);
    assert ChildOK(h, NT(0), n);
    assert TilesBy(h, n, 0, [n]);
    forall pack | TilesBy(h, n, 0, pack) ensures |pack| == 1 && Precedes([n], pack, 1) {
      assert pack == [n];
      PrecedesTotal([n], [n], 1);
    }
  }

  lemma SelfTree(b: Plan, all: set<PNode>, n: PNode)
    requires Covers(b, all) && n in all && n.lit.NT? && !b.ebnf(n) && b.packs(n) == [[n]]
    ensures Build(b, all, {}, n) == [Node(n, [Leaf(n)])] && Text(Node(n, [Leaf(n)])) == []
    ensures n.from < n.to ==> Cyclic(b, n)
  {
    var pack := [n];
    OneLess(all, {}, n);
    assert PackIn(all, pack) && pack[1..] == [];
    assert Build(b, all, {} + {n}, n) == [Leaf(n)] && BuildAll(b, all, {} + {n}, []) == [];
    assert BuildAll(b, all, {} + {n}, pack) == [Leaf(n)];
    OneText(Leaf(n));
    assert Child(b, n, n) && Chain(b, [n]);
    assert Reaches(b, n, n);
  }

  lemma SelfDerives(a: int)
    ensures Derives(SelfGrammar(a), [a], NT(0), 0, 1)
  {
    var g, body := SelfGrammar(a), [T(a)];
    assert PrefixIn(g, [a], 0, body, 0, 0, 0) && LitIn(g, [a], 0, body[0], 0, 1);
    assert StepIn(g, [a], 0, body, 0, 0, 1) && g.prods[1].body == body;
    assert LitIn(g, [a], 1, NT(0), 0, 1);
  }

  /** S => S | 'a', on "a": the input is accepted, but the tree, made from the lower production, has none of it. */
  method SelfParse(a: int, hash: PNode -> int) returns (found: bool, r: Option<Tree>)
    requires !IsSentinel(a)
    ensures found && Derives(SelfGrammar(a), [a], NT(0), 0, 1)
    ensures r == Some(Node(PNode(NT(0), 0, 1), [Leaf(PNode(NT(0), 0, 1))])) && Text(r.value) == []
  {
    hide ChartExact, ClassesExact, NullablesExact, TreeMeans, PacksOf, Chosen, Covers, Build, Spanned, Derives, Live;
    var g := SelfGrammar(a);
    var p := new Parser(g);
    found := p.Parse([a], -1);
    SelfDerives(a);
    ghost var c, st := p.P(), p.Now();
    MoreIsClass(c, st);
    r := BuildBintree(p, hash, _ => true, _ => false);
    SelfBuilt(c, st, Request(ChartOf(c, st), hash, _ => true, _ => false), r);
  }

  lemma SelfBuilt(c: Problem, st: State, o: Request, r: Option<Tree>)
    requires Exact(c, st) && o.c == ChartOf(c, st) && |c.w| == 1 && c.g == SelfGrammar(c.w[0]) && Built(c, o, r)
    requires o.allowed(PNode(NT(0), 0, 1)) && !o.ebnf(PNode(NT(0), 0, 1))
    ensures r == Some(Node(PNode(NT(0), 0, 1), [Leaf(PNode(NT(0), 0, 1))])) && Text(r.value) == []
  {
    hide Exact, Chosen, Covers, Build, Spanned;
    var n := PNode(NT(0), 0, 1);
    SelfChosen(c, st, n);
    forall s | Chosen(o.c, n, s) ensures s == [n] {
      ChosenIsUnique(o.c, n, [n], s);
    }
    SelfTree(PlanOf(o), Spanned(o.c) + {n}, n);
  }

  // ---- a helper on a real input

  function ListGrammar(a: int, b: int): Grammar {
    Grammar([Prod(0, [T(a), NT(1)]), Prod(1, [T(b)])], map[], 0)
  }

  lemma ListReached(a: int, b: int, eof: int)
    ensures Reach(ListGrammar(a, b), [a, b], eof, true, Item(2, 0, 0, 2))
    ensures Reach(ListGrammar(a, b), [a, b], eof, true, Item(2, 1, 1, 1))
  {
    hide Reach;
    var g, w := ListGrammar(a, b), [a, b];
    ReachInit(g, w, eof, true, 0);
    ReachScan(g, w, eof, true, Item(0, 0, 0, 0));
    ReachPredict(g, w, eof, true, Item(1, 0, 0, 1), 1);
    ReachScan(g, w, eof, true, Item(1, 1, 1, 0));
    ReachComplete(g, w, eof, true, Item(1, 0, 0, 1), Item(2, 1, 1, 1));
  }

  /** A pack that is the only one its production has, the lowest of its nonterminal, is chosen. */
  lemma OnlyPackIsChosen(c: Chart, n: PNode, p: nat, r: Pack)
    requires TilesBy(c, n, p, r) && (forall pack :: TilesBy(c, n, p, pack) ==> pack == r)
    requires forall q: nat :: q < p && q < |c.G| ==> n.lit != NT(c.G[q].head)
    ensures Chosen(c, n, r)
  {
    hide Tiles, Precedes;
    PrecedesTotal(r, r, |r|);
    forall q: nat | q < p ensures !HasPack(c, n, q) {
    }
  }

  lemma ListChosen(c: Problem, st: State, a: int, b: int)
    requires Exact(c, st) && c.w == [a, b] && c.g == ListGrammar(a, b)
    ensures Chosen(ChartOf(c, st), PNode(NT(0), 0, 2), [PNode(T(a), 0, 1), PNode(NT(1), 1, 2)])
    ensures Chosen(ChartOf(c, st), PNode(NT(1), 1, 2), [PNode(T(b), 1, 2)])
  {
    hide Reach, Chosen;
    var h := ChartOf(c, st);
    ListReached(a, b, c.eof);
    var x, y := Item(2, 0, 0, 2), Item(2, 1, 1, 1);
    assert x in Items(st, 2) && y in Items(st, 2);
    assert st.G[0] == c.g.prods[0] && st.G[1] == c.g.prods[1];
    assert x in st.S[2] && y in st.S[2] && Spans(h, y, 1);
    var n, e := PNode(NT(0), 0, 2), PNode(NT(1), 1, 2);
    var top, low := [PNode(T(a), 0, 1), e], [PNode(T(b), 1, 2)];
    assert ChildOK(h, T(a), top[0]) && ChildOK(h, NT(1), e) && ChildOK(h, T(b), low[0]);
    assert Tiles(h, h.G[0].body, top, 0, 2) && TilesBy(h, n, 0, top);
    assert Tiles(h, h.G[1].body, low, 1, 2) && TilesBy(h, e, 1, low);
    forall pack: Pack | TilesBy(h, n, 0, pack) ensures pack == top {
      assert ChildOK(h, h.G[0].body[0], pack[0]) && ChildOK(h, h.G[0].body[1], pack[1]);
      assert pack[0].to == pack[0 + 1].from;
    }
    forall pack: Pack | TilesBy(h, e, 1, pack) ensures pack == low {
      assert ChildOK(h, h.G[1].body[0], pack[0]);
    }
    OnlyPackIsChosen(h, n, 0, top);
    OnlyPackIsChosen(h, e, 1, low);
  }

  lemma LastBuilt(b: Plan, all: set<PNode>, vis: set<PNode>, n: PNode)
    requires Covers(b, all) && (n.lit.NT? ==> n in all)
    ensures PackIn(all, [n]) && BuildAll(b, all, vis, [n]) == Build(b, all, vis, n)
  {
    hide Build, Covers;
    assert [n][1..] == [] && BuildAll(b, all, vis, []) == [];
  }

  lemma PairBuilt(b: Plan, all: set<PNode>, vis: set<PNode>, x: PNode, e: PNode)
    requires Covers(b, all) && PackIn(all, [x, e]) && (x.lit.NT? ==> x in all) && (e.lit.NT? ==> e in all)
    ensures BuildAll(b, all, vis, [x, e]) == Build(b, all, vis, x) + Build(b, all, vis, e)
  {
    hide Build, Covers;
    assert [x, e][1..] == [e];
    LastBuilt(b, all, vis, e);
  }

  lemma OneBuilt(b: Plan, all: set<PNode>, vis: set<PNode>, n: PNode, pack: Pack)
    requires Covers(b, all) && n in all && n.lit.NT? && n !in vis && b.packs(n) == [pack]
    ensures PackIn(all, pack)
    ensures Build(b, all, vis, n) ==
              var kids := BuildAll(b, all, vis + {n}, pack); if b.ebnf(n) then kids else [Node(n, kids)]
  {
    hide BuildAll;
    assert b.packs(n)[0] == pack;
    CoveredPacks(b, all, n);
    OneLess(all, vis, n);
  }

  lemma ListTree(b: Plan, all: set<PNode>, n: PNode, x: PNode, e: PNode, y: PNode)
    requires Covers(b, all) && n in all && n.lit.NT? && e.lit.NT? && !x.lit.NT? && !y.lit.NT? && e != n
    requires b.packs(n) == [[x, e]] && b.packs(e) == [[y]] && !b.ebnf(n) && b.ebnf(e)
    ensures Build(b, all, {}, n) == [Node(n, [Leaf(x), Leaf(y)])]
  {
    hide Build, BuildAll, Covers;
    var start: set<PNode> := {};
    var vis := start + {n};
    OneBuilt(b, all, start, n, [x, e]);
    assert [x, e][1] in all;
    PairBuilt(b, all, vis, x, e);
    OneBuilt(b, all, vis, e, [y]);
    LastBuilt(b, all, vis + {e}, y);
    BareBuild(b, all, vis, x);
    BareBuild(b, all, vis + {e}, y);
    assert Build(b, all, vis, e) == [Leaf(y)];
    assert BuildAll(b, all, vis, [x, e]) == [Leaf(x)] + [Leaf(y)];
    assert [Leaf(x)] + [Leaf(y)] == [Leaf(x), Leaf(y)];
  }

  lemma ListBuilt(c: Problem, st: State, o: Request, r: Option<Tree>, a: int, b: int)
    requires Exact(c, st) && o.c == ChartOf(c, st) && c.w == [a, b] && c.g == ListGrammar(a, b) && Built(c, o, r)
    requires forall n :: o.allowed(n) && (o.ebnf(n) <==> n.lit == NT(1))
    ensures r == Some(Node(PNode(NT(0), 0, 2), [Leaf(PNode(T(a), 0, 1)), Leaf(PNode(T(b), 1, 2))]))
  {
    hide Exact, Chosen, Covers, Build, Spanned;
    ListChosen(c, st, a, b);
    var n, e := PNode(NT(0), 0, 2), PNode(NT(1), 1, 2);
    var x, y := PNode(T(a), 0, 1), PNode(T(b), 1, 2);
    forall s | Chosen(o.c, n, s) ensures s == [x, e] {
      ChosenIsUnique(o.c, n, [x, e], s);
    }
    forall s | Chosen(o.c, e, s) ensures s == [y] {
      ChosenIsUnique(o.c, e, [y], s);
    }
    ListTree(PlanOf(o), Spanned(o.c) + {n}, n, x, e, y);
  }

  /** S => 'a' E and E => 'b', on "ab", where E is a helper: both characters are children of the root. */
  method ListParse(a: int, b: int, hash: PNode -> int) returns (r: Option<Tree>)
    requires !IsSentinel(a) && !IsSentinel(b)
    ensures r == Some(Node(PNode(NT(0), 0, 2), [Leaf(PNode(T(a), 0, 1)), Leaf(PNode(T(b), 1, 2))]))
  {
    hide ChartExact, ClassesExact, NullablesExact, TreeMeans, TreeShaped, PacksOf, Chosen, Covers, Build, Spanned,
      Derives, Live;
    var p := new Parser(ListGrammar(a, b));
    var _ := p.Parse([a, b], -1);
    ghost var c, st := p.P(), p.Now();
    MoreIsClass(c, st);
    var allowed: PNode -> bool := _ => true;
    var ebnf: PNode -> bool := (n: PNode) => n.lit == NT(1);
    r := BuildBintree(p, hash, allowed, ebnf);
    ListBuilt(c, st, Request(ChartOf(c, st), hash, allowed, ebnf), r, a, b);
  }
}
