/** One tree in three forms: as the builder makes it, as the traversals rewrite it, and as the count walks it. */
module TreeForms {
  import opened Options
  import opened Grammars
  import opened EarleyChart
  import opened EarleyParser
  import opened ChildTilings
  import opened TilingMeaning
  import opened ChartPlans
  import opened TreeBuilder
  import opened TreeSpelling
  import opened ChartTrees
  import Rewritten = Traversals
  import Inlining
  import Counted = ParseCounts

  // ---- the form that is rewritten

  /** Literals are numbered one to one, terminals and nonterminals apart; `null` is the terminal 0. */
  function Number(l: Lit): nat {
    match l
    case Null => 0
    case T(c) => if c >= 0 then 2 * c + 1 else -2 * c
    case NT(n) => n
  }

  function LabelOf(at: PNode): Rewritten.Label {
    Rewritten.Label(at.lit.NT?, Number(at.lit), at.from, at.to)
  }

  /** A node of alternatives carries the nonterminal `amb`. */
  function Labelled(amb: nat, t: Tree): Rewritten.Tree
    decreases t, 0
  {
    match t
    case Node(at, kids) => Rewritten.Node(LabelOf(at), LabelledAll(amb, kids))
    case Amb(from, to, alts) => Rewritten.Node(Rewritten.Label(true, amb, from, to), LabelledAll(amb, alts))
  }

  function LabelledAll(amb: nat, ts: seq<Tree>): (rs: seq<Rewritten.Tree>)
    ensures |rs| == |ts| && forall i :: 0 <= i < |ts| ==> rs[i] == Labelled(amb, ts[i])
    decreases ts, 1
  {
    if ts == [] then [] else [Labelled(amb, ts[0])] + LabelledAll(amb, ts[1..])
  }

  /** The characters that terminals stand for. */
  function Chars(ls: seq<Rewritten.Label>): seq<int> {
    if ls == [] then []
    else
      var l := ls[0];
      (if l.nt || l.id == 0 then [] else if l.id % 2 == 1 then [l.id / 2] else [-(l.id / 2)]) + Chars(ls[1..])
  }

  lemma {:induction false} CharsMore(a: seq<Rewritten.Label>, b: seq<Rewritten.Label>)
    ensures Chars(a + b) == Chars(a) + Chars(b)
  {
    if a == [] {
      assert a + b == b;
    } else {
      assert (a + b)[1..] == a[1..] + b;
      CharsMore(a[1..], b);
    }
  }

  /** Leaves have no children, and no node is one of alternatives. */
  ghost predicate Plain(amb: nat, t: Tree)
    decreases t, 0
  {
    t.Node? && (if t.at.lit.NT? then t.at.lit.n != amb else t.kids == []) && AllPlain(amb, t.kids)
  }

  ghost predicate AllPlain(amb: nat, ts: seq<Tree>)
    decreases ts, 1
  {
    ts == [] || (Plain(amb, ts[0]) && AllPlain(amb, ts[1..]))
  }

  lemma OneChar(at: PNode)
    ensures Chars([LabelOf(at)]) == if at.lit.T? then [at.lit.c] else []
  {
    assert [LabelOf(at)][1..] == [];
  }

  /** The terminals of the second form are the leaves of the first. */
  lemma {:induction false} LabelledText(amb: nat, t: Tree)
    requires Plain(amb, t)
    ensures Chars(Inlining.Yield(Labelled(amb, t))) == Text(t)
    decreases t, 0
  {
    LabelledTextAll(amb, t.kids);
    OneChar(t.at);
    var head: seq<Rewritten.Label> := if t.at.lit.NT? then [] else [LabelOf(t.at)];
    CharsMore(head, Inlining.YieldAll(LabelledAll(amb, t.kids)));
  }

  lemma {:induction false} LabelledTextAll(amb: nat, ts: seq<Tree>)
    requires AllPlain(amb, ts)
    ensures Chars(Inlining.YieldAll(LabelledAll(amb, ts))) == TextAll(ts)
    decreases ts, 1
  {
    if ts != [] {
      LabelledText(amb, ts[0]);
      LabelledTextAll(amb, ts[1..]);
      var rs := LabelledAll(amb, ts);
      assert rs[1..] == LabelledAll(amb, ts[1..]);
      CharsMore(Inlining.Yield(rs[0]), Inlining.YieldAll(rs[1..]));
    }
  }

  // ---- the form that is counted

  /** The literal of a label as one number. */
  function Symbol(l: Rewritten.Label): int {
    if l.nt then 2 * l.id else 2 * l.id + 1
  }

  /** First child and next sibling. */
  function Linked(t: Rewritten.Tree, next: Counted.Bin): Counted.Bin
    decreases t, 0
  {
    Counted.Bin(Symbol(t.head), LinkedAll(t.kids), next)
  }

  function LinkedAll(ts: seq<Rewritten.Tree>): Counted.Bin
    decreases ts, 1
  {
    if ts == [] then Counted.Nil else Linked(ts[0], LinkedAll(ts[1..]))
  }

  /** A tree without alternatives counts once. */
  lemma {:induction false} PlainCountsOnce(amb: nat, t: Tree, next: Counted.Bin)
    requires Plain(amb, t)
    ensures Counted.Count(2 * amb, Linked(Labelled(amb, t), next)) == 1
    decreases t, 0
  {
    AllCountOnce(amb, t.kids);
    assert Symbol(LabelOf(t.at)) != 2 * amb;
  }

  lemma {:induction false} AllCountOnce(amb: nat, ts: seq<Tree>)
    requires AllPlain(amb, ts)
    ensures Counted.Product(2 * amb, LinkedAll(LabelledAll(amb, ts))) == 1
    decreases ts, 1
  {
    if ts != [] {
      var rs := LabelledAll(amb, ts);
      assert rs[1..] == LabelledAll(amb, ts[1..]) && rs[0] == Labelled(amb, ts[0]);
      PlainCountsOnce(amb, ts[0], LinkedAll(rs[1..]));
      AllCountOnce(amb, ts[1..]);
    }
  }

  // ---- trees built where disambiguation is allowed everywhere

  lemma {:induction false} PlainMore(amb: nat, a: seq<Tree>, b: seq<Tree>)
    requires AllPlain(amb, a) && AllPlain(amb, b)
    ensures AllPlain(amb, a + b)
  {
    if a == [] {
      assert a + b == b;
    } else {
      assert (a + b)[1..] == a[1..] + b;
      PlainMore(amb, a[1..], b);
    }
  }

  ghost predicate Unused(amb: nat, all: set<PNode>) {
    forall n :: n in all ==> n.lit.NT? && n.lit.n != amb
  }

  lemma {:induction false} BuildPlain(b: Plan, all: set<PNode>, vis: set<PNode>, n: PNode, amb: nat)
    requires Covers(b, all) && Single(b, all) && Unused(amb, all) && (n.lit.NT? ==> n in all)
    ensures AllPlain(amb, Build(b, all, vis, n))
    decreases |all - vis|, 0, 0
  {
    if !Bare(b, vis, n) {
      var ps := b.packs(n);
      OneLess(all, vis, n);
      assert PacksIn(all, ps) && PackIn(all, ps[0]);
      BuildAllPlain(b, all, vis + {n}, ps[0], amb);
      var t := Node(n, BuildAll(b, all, vis + {n}, ps[0]));
      assert Plain(amb, t) && [t][1..] == [];
    } else {
      assert Plain(amb, Leaf(n)) && [Leaf(n)][1..] == [];
    }
  }

  lemma {:induction false} BuildAllPlain(b: Plan, all: set<PNode>, vis: set<PNode>, pack: Pack, amb: nat)
    requires Covers(b, all) && Single(b, all) && Unused(amb, all) && PackIn(all, pack)
    ensures AllPlain(amb, BuildAll(b, all, vis, pack))
    decreases |all - vis|, 1, |pack|
  {
    hide Covers, Build;
    if pack != [] {
      BuildPlain(b, all, vis, pack[0], amb);
      BuildAllPlain(b, all, vis, pack[1..], amb);
      PlainMore(amb, Build(b, all, vis, pack[0]), BuildAll(b, all, vis, pack[1..]));
    }
  }

  lemma ChartUnused(c: Chart, amb: nat)
    requires forall q :: 0 <= q < |c.G| ==> c.G[q].head != amb
    ensures Unused(amb, Spanned(c))
  {
  }

  lemma DisambiguatedIsPlain(c: Problem, st: State, o: Request, r: Option<Tree>, amb: nat)
    requires Exact(c, st) && o.c == ChartOf(c, st) && !o.ebnf(RootOf(c.g, c.w)) && Built(c, o, r)
    requires (forall n :: o.allowed(n)) && Derives(Live(c.g), c.w, NT(c.g.start), 0, |c.w|)
    requires forall q :: 0 <= q < |st.G| ==> st.G[q].head != amb
    ensures r.Some? && Plain(amb, r.value)
  {
    hide Exact, Spanned, Derives, Live, Covers, Build, Single, PacksOf;
    var root := RootOf(c.g, c.w);
    RootInChart(c, st);
    assert Spanned(o.c) + {root} == Spanned(o.c);
    AllowedIsSingle(c, st, o);
    ChartUnused(o.c, amb);
    BuildPlain(PlanOf(o), Spanned(o.c), {}, root, amb);
    OneTree(PlanOf(o), Spanned(o.c), root);
  }

  /** From a parse to the tree it hands out, helpers inlined, and to the number of its parses. Where disambiguation is
      allowed everywhere and no nonterminal derives itself, an input that is derived gives a tree that still spells it,
      and that is one parse. */
  method ShapedTree(p: Parser, hash: PNode -> int, allowed: PNode -> bool, ebnf: PNode -> bool,
          shaping: Inlining.Shaping, amb: nat)
    returns (r: Option<Rewritten.Tree>, count: Counted.Word)
    requires p.Valid() && ChartExact(p.P(), p.Now()) && ClassesExact(p.P(), p.Now()) && |p.w| < |p.S|
    requires |p.w| < SIZE_MAX && |p.G| <= SIZE_MAX
    requires forall q :: 0 <= q < |p.G| ==> p.G[q].head != amb
    ensures !ebnf(RootOf(p.g, p.w)) && (forall n :: allowed(n)) && !Circular(p.g)
            && Derives(Live(p.g), p.w, NT(p.g.start), 0, |p.w|) ==>
              r.Some? && Chars(Inlining.Yield(r.value)) == p.w && count == 1
  {
    hide ChartExact, ClassesExact, GrammarOK, NullablesExact, Derives, Live, Circular, Built, Tiled, Text, Labelled;
    var t := BuildBintree(p, hash, allowed, ebnf);
    ghost var c, st := p.P(), p.Now();
    ghost var o := Request(Chart(p.G, p.S, p.w), hash, allowed, ebnf);
    if t.None? {
      return None, 1;
    }
    var whole := Labelled(amb, t.value);
    count := Counted.CountParses(2 * amb, Linked(whole, Counted.Nil));
    var inlined := Inlining.InlineNodes(shaping, amb, whole);
    r := Some(inlined);
    if !ebnf(RootOf(p.g, p.w)) && (forall n :: allowed(n)) && Derives(Live(p.g), p.w, NT(p.g.start), 0, |p.w|) {
      DisambiguatedIsPlain(c, st, o, t, amb);
      Inlining.InlineKeepsYield(shaping, amb, whole);
      LabelledText(amb, t.value);
      PlainCountsOnce(amb, t.value, Counted.Nil);
    }
  }
}
