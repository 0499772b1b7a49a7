/** What the tilings of a finished chart mean: they are the ways to split a span into derivations. */
module TilingMeaning {
  import opened Grammars
  import opened EarleyItems
  import opened EarleyChart
  import opened ChildTilings

  function ChartOf(c: Problem, st: State): Chart {
    Chart(st.G, st.S, c.w)
  }

  /** What the recognizer leaves behind. */
  ghost predicate Exact(c: Problem, st: State) {
    GrammarOK(c, st) && ChartExact(c, st) && ClassesExact(c, st) && |c.w| < |st.S|
  }

  lemma ExactIsChartOK(c: Problem, st: State)
    requires Exact(c, st)
    ensures ChartOK(ChartOf(c, st))
  {
    hide Reach, Live;
    forall k, x | 0 <= k < |st.S| && x in st.S[k] ensures x.at == k && x.from <= k && x.prod < |st.G| && Fits(st.G, x) {
      assert x in Items(st, k);
      if Source(c, x) {
        assert st.G[x.prod] == c.g.prods[x.prod];
        ReachIsSound(c.g, c.w, c.eof, true, x);
      }
    }
  }

  /** The literals of a body derive the spans of the nodes. */
  ghost predicate Decomposes(g: Grammar, w: seq<int>, body: seq<Lit>, pack: Pack, i: nat, j: nat) {
    && |pack| == |body| && Contiguous(pack, i, j)
    && forall k :: 0 <= k < |body| ==> pack[k].lit == body[k] && Derives(Live(g), w, body[k], pack[k].from, pack[k].to)
  }

  ghost predicate Begun(g: Grammar, w: seq<int>, eof: int, x: Item) {
    Reach(g, w, eof, true, x) && Reach(g, w, eof, true, Item(x.from, x.prod, x.from, 0))
  }

  /** An item is reached only together with the prediction it grew from. */
  lemma StartReached(g: Grammar, w: seq<int>, eof: int, x: Item)
    requires Reach(g, w, eof, true, x)
    ensures Reach(g, w, eof, true, Item(x.from, x.prod, x.from, 0))
  {
    var C := iset y | Begun(g, w, eof, y);
    BegunIsClosed(g, w, eof, C);
    assert x in C;
  }

  lemma BegunIsClosed(g: Grammar, w: seq<int>, eof: int, C: iset<Item>)
    requires C == iset y | Begun(g, w, eof, y)
    ensures Closed(g, w, eof, true, C)
  {
    hide Reach, Live;
    forall p | 0 <= p < |g.prods| && g.prods[p].head == g.start ensures Item(0, p, 0, 0) in C {
      ReachInit(g, w, eof, true, p);
    }
    forall x, p | x in C && 0 <= p < |g.prods| && g.prods[p].head !in g.classes
           && WaitsFor(g.prods, x, NT(g.prods[p].head)) && FirstCanMatch(g, g.prods[p].body, CharAt(w, eof, x.at))
      ensures Item(x.at, p, x.at, 0) in C
    {
      ReachPredict(g, w, eof, true, x, p);
    }
    forall x | x in C && x.at < |w| && WaitsFor(g.prods, x, T(w[x.at])) ensures Advance(x, x.at + 1) in C {
      ReachScan(g, w, eof, true, x);
    }
    forall x, n | x in C && x.at < |w| && n in g.classes && WaitsFor(g.prods, x, NT(n)) && w[x.at] in g.classes[n]
      ensures Advance(x, x.at + 1) in C
    {
      ReachScan(g, w, eof, true, x);
    }
    forall x | x in C && StepsOverNull(g.prods, x) ensures Advance(x, x.at) in C {
      ReachNull(g, w, eof, true, x);
    }
    forall x, e | x in C && e in C && EarleyItems.Completes(g, e, x) ensures Advance(x, e.at) in C {
      ReachComplete(g, w, eof, true, x, e);
    }
    assert ClosedPredict(g, w, eof, true, C);
  }

  lemma SpanIsDerived(c: Problem, st: State, n: nat, i: nat, j: nat)
    requires Exact(c, st) && SpanIn(ChartOf(c, st), n, i, j)
    ensures Derives(Live(c.g), c.w, NT(n), i, j)
  {
    hide Reach, Derives, Live;
    var x: Item :| x in st.S[j] && Spans(ChartOf(c, st), x, n) && x.from == i;
    assert x in Items(st, j);
    if Source(c, x) {
      assert st.G[x.prod] == c.g.prods[x.prod];
      ReachIsSound(c.g, c.w, c.eof, true, x);
      CompletedDerives(c.g, c.w, x);
    } else {
      ClassDerives(c.g, c.w, n, i);
    }
  }

  lemma DerivesWithin(g: Grammar, w: seq<int>, h: nat, l: Lit, i: nat, j: nat)
    requires LitIn(g, w, h, l, i, j)
    ensures Derives(g, w, l, i, j)
  {
  }

  /** A span that something reached waits for is in the chart as soon as it is derived. */
  lemma DerivedIsSpan(c: Problem, st: State, y: Item, n: nat, j: nat)
    requires Exact(c, st) && Reach(c.g, c.w, c.eof, true, y) && WaitsFor(c.g.prods, y, NT(n)) && y.at <= |c.w|
    requires Derives(Live(c.g), c.w, NT(n), y.at, j)
    ensures SpanIn(ChartOf(c, st), n, y.at, j)
  {
    hide Reach;
    var i := y.at;
    var h: nat :| LitIn(Live(c.g), c.w, h, NT(n), i, j);
    SpanOrder(Live(c.g), c.w, h, NT(n), i, j);
    if n in c.g.classes {
      var x := Item(i + 1, st.ps[(n, c.w[i])], i, 1);
      assert x in Items(st, i + 1);
      assert x in st.S[i + 1] && Spans(ChartOf(c, st), x, n);
    } else {
      var q := LiveAlternative(c.g, c.w, h, n, i, j);
      if c.g.prods[q].body != [] {
        DerivedCanMatch(c.g, c.w, c.eof, h - 1, c.g.prods[q].body, |c.g.prods[q].body|, i, j);
      }
      ReachPredict(c.g, c.w, c.eof, true, y, q);
      ReachPrefix(c.g, c.w, c.eof, true, h - 1, q, |c.g.prods[q].body|, i, j);
      var x := Item(j, q, i, |c.g.prods[q].body|);
      assert x in Items(st, j) && st.G[q] == c.g.prods[q];
      assert x in st.S[j] && Spans(ChartOf(c, st), x, n);
    }
  }

  ghost predicate ChildDerives(c: Problem, l: Lit, d: PNode) {
    d.lit == l && Derives(Live(c.g), c.w, l, d.from, d.to)
  }

  /** Child by child, from the left: the chart has exactly the derived spans. */
  lemma ChildIsDerived(c: Problem, st: State, y: Item, l: Lit, d: PNode)
    requires Exact(c, st) && Reach(c.g, c.w, c.eof, true, y) && WaitsFor(c.g.prods, y, l) && y.at == d.from <= |c.w|
    ensures ChildOK(ChartOf(c, st), l, d) <==> ChildDerives(c, l, d)
  {
    hide Reach, Live;
    if l.NT? {
      if ChildOK(ChartOf(c, st), l, d) {
        SpanIsDerived(c, st, l.n, d.from, d.to);
      }
      if ChildDerives(c, l, d) {
        DerivedIsSpan(c, st, y, l.n, d.to);
      }
    } else {
      assert ChildOK(ChartOf(c, st), l, d) ==> LitIn(Live(c.g), c.w, 0, l, d.from, d.to);
    }
  }

  lemma ReachNext(c: Problem, y: Item, l: Lit, d: PNode)
    requires Reach(c.g, c.w, c.eof, true, y) && WaitsFor(c.g.prods, y, l) && y.at == d.from && ChildDerives(c, l, d)
    requires d.from <= |c.w| && Addable(c, y)
    ensures Reach(c.g, c.w, c.eof, true, Item(d.to, y.prod, y.from, y.dot + 1)) && d.to <= |c.w|
  {
    hide Reach, Live;
    var h :| LitIn(Live(c.g), c.w, h, l, d.from, d.to);
    ReachLit(c.g, c.w, c.eof, true, h, y, l, d.to);
    SpanOrder(Live(c.g), c.w, h, l, d.from, d.to);
  }

  ghost predicate ChildrenOK(c: Problem, st: State, body: seq<Lit>, pack: Pack, n: nat) {
    n <= |body| == |pack| && forall k :: 0 <= k < n ==> ChildOK(ChartOf(c, st), body[k], pack[k])
  }

  ghost predicate ChildrenDerive(c: Problem, body: seq<Lit>, pack: Pack, n: nat) {
    n <= |body| == |pack| && forall k :: 0 <= k < n ==> ChildDerives(c, body[k], pack[k])
  }

  lemma {:induction false} PrefixAgrees(c: Problem, st: State, x: Item, pack: Pack, n: nat)
    requires Exact(c, st) && Source(c, x) && x.from <= |c.w|
    requires Reach(c.g, c.w, c.eof, true, Item(x.from, x.prod, x.from, 0))
    requires Clear(c.g.prods[x.prod].body, |c.g.prods[x.prod].body|)
    requires var body := c.g.prods[x.prod].body; |pack| == |body| && n <= |body| && Contiguous(pack, x.from, x.at)
    ensures ChildrenOK(c, st, c.g.prods[x.prod].body, pack, n) <==> ChildrenDerive(c, c.g.prods[x.prod].body, pack, n)
    ensures ChildrenDerive(c, c.g.prods[x.prod].body, pack, n) ==>
              var at := if n == 0 then x.from else pack[n - 1].to;
              at <= |c.w| && Reach(c.g, c.w, c.eof, true, Item(at, x.prod, x.from, n))
    decreases n
  {
    hide Reach, ChildDerives, ChildOK, GrammarOK, ChartExact, ClassesExact;
    if n > 0 {
      PrefixAgrees(c, st, x, pack, n - 1);
      if ChildrenDerive(c, c.g.prods[x.prod].body, pack, n - 1) {
        var l, d := c.g.prods[x.prod].body[n - 1], pack[n - 1];
        var at := if n == 1 then x.from else pack[n - 2].to;
        if n > 1 {
          assert pack[n - 2].to == pack[n - 2 + 1].from;
        }
        var y := Item(at, x.prod, x.from, n - 1);
        ChildIsDerived(c, st, y, l, d);
        if ChildDerives(c, l, d) {
          ReachNext(c, y, l, d);
        }
      }
    }
  }

  /** The packs of a completed item are exactly the decompositions of its span. */
  lemma TilingsAreDecompositions(c: Problem, st: State, x: Item, pack: Pack)
    requires Exact(c, st) && Source(c, x) && x in Items(st, x.at) && x.at <= |c.w| && Completed(c.g.prods, x)
    ensures ChildrenOf(ChartOf(c, st), x, pack) <==> Decomposes(c.g, c.w, c.g.prods[x.prod].body, pack, x.from, x.at)
  {
    hide Reach, Derives, Live;
    var body := c.g.prods[x.prod].body;
    assert st.G[x.prod] == c.g.prods[x.prod];
    if |pack| == |body| && Contiguous(pack, x.from, x.at) {
      StartReached(c.g, c.w, c.eof, x);
      ReachIsSound(c.g, c.w, c.eof, true, x);
      PrefixAgrees(c, st, x, pack, |body|);
      assert ChildrenDerive(c, body, pack, |body|) <==> Decomposes(c.g, c.w, body, pack, x.from, x.at);
    }
  }

  lemma {:induction false} PrefixDecomposes(g: Grammar, w: seq<int>, h: nat, body: seq<Lit>, d: nat, i: nat, j: nat)
    returns (pack: Pack)
    requires d <= |body| && PrefixIn(Live(g), w, h, body, d, i, j)
    ensures Decomposes(g, w, body[..d], pack, i, j)
    decreases d
  {
    if d == 0 {
      pack := [];
    } else {
      assert StepIn(Live(g), w, h, body, d - 1, i, j);
      var k: nat :| PrefixIn(Live(g), w, h, body, d - 1, i, k) && LitIn(Live(g), w, h, body[d - 1], k, j);
      var p := PrefixDecomposes(g, w, h, body, d - 1, i, k);
      pack := p + [PNode(body[d - 1], k, j)];
      DerivesWithin(Live(g), w, h, body[d - 1], k, j);
      Appended(g, w, body, d, p, i, k, j);
    }
  }

  lemma Appended(g: Grammar, w: seq<int>, body: seq<Lit>, d: nat, p: Pack, i: nat, k: nat, j: nat)
    requires 0 < d <= |body| && Decomposes(g, w, body[..d - 1], p, i, k) && Derives(Live(g), w, body[d - 1], k, j)
    ensures Decomposes(g, w, body[..d], p + [PNode(body[d - 1], k, j)], i, j)
  {
    hide Derives, Live;
    var pack, b := p + [PNode(body[d - 1], k, j)], body[..d];
    forall m | 0 <= m < d ensures pack[m].lit == b[m] && Derives(Live(g), w, b[m], pack[m].from, pack[m].to) {
      if m < d - 1 {
        assert body[..d - 1][m] == b[m] && p[m] == pack[m];
      }
    }
    forall m | 0 <= m < d - 1 ensures pack[m].to == pack[m + 1].from {
      if m < d - 2 {
        assert p[m].to == p[m + 1].from;
      }
    }
  }

  /** So a completed item always has children. */
  lemma CompletedHasChildren(c: Problem, st: State, x: Item) returns (pack: Pack)
    requires Exact(c, st) && Source(c, x) && x in Items(st, x.at) && x.at <= |c.w| && Completed(c.g.prods, x)
    ensures ChildrenOf(ChartOf(c, st), x, pack)
  {
    hide Reach, Derives, Live;
    ReachIsSound(c.g, c.w, c.eof, true, x);
    var body := c.g.prods[x.prod].body;
    var h :| PrefixIn(Live(c.g), c.w, h, body, |body|, x.from, x.at);
    pack := PrefixDecomposes(c.g, c.w, h, body, |body|, x.from, x.at);
    assert body[..|body|] == body;
    TilingsAreDecompositions(c, st, x, pack);
  }

  /** Searching a finished chart for the children of a completed item gives all its decompositions, at least one. */
  method Children(c: Problem, st: State, x: Item) returns (packs: set<Pack>)
    requires Exact(c, st) && Source(c, x) && x in Items(st, x.at) && x.from <= x.at <= |c.w| && Completed(c.g.prods, x)
    ensures forall pack :: pack in packs <==> Decomposes(c.g, c.w, c.g.prods[x.prod].body, pack, x.from, x.at)
    ensures packs != {}
  {
    hide Reach, Derives, ClassesExact, ChartOK;
    ExactIsChartOK(c, st);
    assert st.G[x.prod] == c.g.prods[x.prod];
    packs := ChildPacks(ChartOf(c, st), x);
    forall pack ensures pack in packs <==> Decomposes(c.g, c.w, c.g.prods[x.prod].body, pack, x.from, x.at) {
      TilingsAreDecompositions(c, st, x, pack);
    }
    ghost var one := CompletedHasChildren(c, st, x);
    assert one in packs;
  }
}
