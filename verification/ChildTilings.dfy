/** The children of a completed item: every way to tile its span with the literals of its body. */
module ChildTilings {
  import opened Grammars
  import opened EarleyItems

  /** A node of the parse forest: a literal and the span it covers. */
  datatype PNode = PNode(lit: Lit, from: nat, to: nat)

  type Pack = seq<PNode>

  /** What the search reads: the productions, class productions included, the chart, the input. */
  datatype Chart = Chart(G: seq<Prod>, S: seq<seq<Item>>, w: seq<int>)

  /** Items fit their productions and do not start after the set they are in. */
  ghost predicate ChartOK(c: Chart) {
    forall k, x :: 0 <= k < |c.S| && x in c.S[k] ==> x.at == k && x.from <= k && x.prod < |c.G| && Fits(c.G, x)
  }

  predicate Spans(c: Chart, x: Item, n: nat) {
    x.prod < |c.G| && x.dot == |c.G[x.prod].body| && c.G[x.prod].head == n
  }

  /** The chart has `n` completed from `i` to `j`. */
  ghost predicate SpanIn(c: Chart, n: nat, i: nat, j: nat) {
    j < |c.S| && exists x :: x in c.S[j] && Spans(c, x, n) && x.from == i
  }

  ghost predicate ChildOK(c: Chart, l: Lit, d: PNode) {
    d.lit == l && match l
                  case Null => d.from == d.to
                  case T(ch) => d.from < |c.w| && d.to == d.from + 1 && c.w[d.from] == ch
                  case NT(n) => SpanIn(c, n, d.from, d.to)
  }

  /** The nodes follow on one another from `i` to `j`. */
  ghost predicate Contiguous(pack: Pack, i: nat, j: nat) {
    && (pack == [] ==> i == j)
    && (pack != [] ==> pack[0].from == i && pack[|pack| - 1].to == j)
    && forall k :: 0 <= k < |pack| - 1 ==> pack[k].to == pack[k + 1].from
  }

  /** The nodes spell the body, tile the span, match the input, and use completed spans of the chart. */
  ghost predicate Tiles(c: Chart, body: seq<Lit>, pack: Pack, i: nat, j: nat) {
    |pack| == |body| && Contiguous(pack, i, j) && forall k :: 0 <= k < |body| ==> ChildOK(c, body[k], pack[k])
  }

  /** The children of an item. */
  ghost predicate ChildrenOf(c: Chart, x: Item, pack: Pack)
    requires x.prod < |c.G|
  {
    Tiles(c, c.G[x.prod].body, pack, x.from, x.at)
  }

  function Reversed(s: Pack): (r: Pack)
    ensures |r| == |s| && forall k :: 0 <= k < |s| ==> r[k] == s[|s| - 1 - k]
  {
    seq(|s|, k requires 0 <= k < |s| => s[|s| - 1 - k])
  }

  /** A pack whose last nodes have been chosen, in reverse, and whose first ones tile what is left. */
  ghost predicate FinishesAs(c: Chart, x: Item, chosen: Pack, to: nat, pack: Pack)
    requires x.prod < |c.G| && |chosen| <= |c.G[x.prod].body|
  {
    var body := c.G[x.prod].body;
    var n := |body| - |chosen|;
    |pack| == |body| && pack[n..] == Reversed(chosen) && Tiles(c, body[..n], pack[..n], x.from, to)
  }

  lemma {:induction false} TilesForwards(c: Chart, body: seq<Lit>, pack: Pack, i: nat, j: nat, k: nat)
    requires ChartOK(c) && k < |pack| && Tiles(c, body, pack, i, j)
    ensures i <= pack[k].from <= pack[k].to
    decreases k
  {
    assert ChildOK(c, body[k], pack[k]);
    if k > 0 {
      TilesForwards(c, body, pack, i, j, k - 1);
      assert pack[k - 1].to == pack[k - 1 + 1].from;
    }
  }

  lemma TilesShorter(c: Chart, body: seq<Lit>, pack: Pack, i: nat, j: nat)
    requires Tiles(c, body, pack, i, j) && pack != []
    ensures var m := |pack| - 1;
            Tiles(c, body[..m], pack[..m], i, pack[m].from) && ChildOK(c, body[m], pack[m]) && pack[m].to == j
  {
    var m := |pack| - 1;
    var b, p := body[..m], pack[..m];
    if m > 0 {
      assert pack[m - 1].to == pack[m - 1 + 1].from;
    }
    forall k | 0 <= k < m ensures ChildOK(c, b[k], p[k]) {
      assert ChildOK(c, body[k], pack[k]);
    }
    forall k | 0 <= k < m - 1 ensures p[k].to == p[k + 1].from {
      assert pack[k].to == pack[k + 1].from;
    }
  }

  lemma TilesLonger(c: Chart, body: seq<Lit>, pack: Pack, i: nat)
    requires |pack| == |body| > 0
    requires var m := |pack| - 1; Tiles(c, body[..m], pack[..m], i, pack[m].from) && ChildOK(c, body[m], pack[m])
    ensures Tiles(c, body, pack, i, pack[|pack| - 1].to)
  {
    var m := |pack| - 1;
    var b, p := body[..m], pack[..m];
    forall k | 0 <= k < |pack| ensures ChildOK(c, body[k], pack[k]) {
      if k < m {
        assert ChildOK(c, b[k], p[k]);
      }
    }
    forall k | 0 <= k < m ensures pack[k].to == pack[k + 1].from {
      if k < m - 1 {
        assert p[k].to == p[k + 1].from;
      }
    }
  }

  /** Choosing the next node from the right. */
  lemma FinishesNext(c: Chart, x: Item, chosen: Pack, to: nat, pack: Pack)
    requires ChartOK(c) && x.prod < |c.G| && |chosen| < |c.G[x.prod].body| && |pack| == |c.G[x.prod].body|
    ensures var n := |pack| - |chosen|; var d := pack[n - 1];
            FinishesAs(c, x, chosen, to, pack) <==>
              ChildOK(c, c.G[x.prod].body[n - 1], d) && d.to == to && d.from >= x.from
                  && FinishesAs(c, x, chosen + [d], d.from, pack)
  {
    hide Tiles, ChildOK, ChartOK;
    var body := c.G[x.prod].body;
    var n := |pack| - |chosen|;
    var d := pack[n - 1];
    assert pack[..n][..n - 1] == pack[..n - 1] && body[..n][..n - 1] == body[..n - 1];
    if FinishesAs(c, x, chosen, to, pack) {
      TilesForwards(c, body[..n], pack[..n], x.from, to, n - 1);
      TilesShorter(c, body[..n], pack[..n], x.from, to);
      ReversedMore(chosen, d, pack[n..], pack[n - 1..]);
    }
    if ChildOK(c, body[n - 1], d) && d.to == to && FinishesAs(c, x, chosen + [d], d.from, pack) {
      assert pack[n..] == pack[n - 1..][1..];
      ReversedMore(chosen, d, Reversed(chosen), pack[n - 1..]);
      TilesLonger(c, body[..n], pack[..n], x.from);
    }
  }

  lemma ReversedMore(chosen: Pack, d: PNode, rest: Pack, more: Pack)
    ensures rest == Reversed(chosen) && more == [d] + rest ==> more == Reversed(chosen + [d])
    ensures more == Reversed(chosen + [d]) ==> more[1..] == Reversed(chosen)
  {
  }

  lemma FinishesLast(c: Chart, x: Item, chosen: Pack, to: nat, pack: Pack)
    requires x.prod < |c.G| && |chosen| == |c.G[x.prod].body|
    ensures FinishesAs(c, x, chosen, to, pack) <==> pack == Reversed(chosen) && to == x.from
  {
    assert pack[0..] == pack;
    assert |Reversed(chosen)| == |chosen|;
  }

  /** The search for the children of one item. */
  class ChildForest {
    const c: Chart
    const item: Item
    var curchd: Pack               // nodes chosen so far, from the right
    var ambset: set<Pack>          // finished packs

    constructor (chart: Chart, x: Item)
      requires x.prod < |chart.G|
      ensures c == chart && item == x && curchd == [] && ambset == {}
    {
      c, item, curchd, ambset := chart, x, [], {};
    }

    ghost predicate Ready()
      reads this
    {
      ChartOK(c) && item.prod < |c.G| && |curchd| <= |c.G[item.prod].body|
    }

    /** Adds every pack that completes the chosen nodes, and no other; the chosen nodes are put back. */
    method SblChdForest(xto: nat)
      requires Ready() && item.from <= xto <= |c.w|
      modifies this
      ensures Ready() && curchd == old(curchd)
      ensures forall pack: Pack :: pack in ambset <==> pack in old(ambset) || FinishesAs(c, item, curchd, xto, pack)
      decreases |c.G[item.prod].body| - |curchd|, 1
    {
      hide ChartOK, FinishesAs;
      var body := c.G[item.prod].body;
      ghost var was, chosen := ambset, curchd;
      if |body| <= |curchd| {
        forall pack: Pack
          ensures FinishesAs(c, item, curchd, xto, pack) <==> pack == Reversed(curchd) && xto == item.from
        {
          FinishesLast(c, item, curchd, xto, pack);
        }
        if xto == item.from {
          ambset := ambset + {Reversed(curchd)};
        }
        return;
      }
      var next := body[|body| - 1 - |curchd|];
      if !next.NT? {
        var from := xto;
        if next.T? {
          if xto > item.from && c.w[xto - 1] == next.c {
            from := xto - 1;
          } else {
            NoChild(c, item, curchd, xto);
            return;
          }
        }
        OneChild(c, item, curchd, xto, from);
        TryChild(PNode(next, from, xto), from);
      } else {
        var row := if xto < |c.S| then c.S[xto] else [];
        for k := 0 to |row|
          invariant Ready() && curchd == chosen
          invariant forall pack: Pack :: pack in ambset <==> pack in was || ViaRow(c, item, chosen, xto, row[..k], pack)
        {
          ghost var before := ambset;
          RowEntry(c, xto, k);
          if Spans(c, row[k], next.n) && row[k].from >= item.from {
            TryChild(PNode(next, row[k].from, xto), row[k].from);
          }
          RowStep(c, item, chosen, xto, row, k, before, ambset, was);
        }
        RowDone(c, item, chosen, xto, row);
      }
    }

    /** Goes on with one more node chosen. */
    method TryChild(d: PNode, from: nat)
      requires Ready() && item.from <= from <= |c.w| && |curchd| < |c.G[item.prod].body|
      modifies this
      ensures Ready() && curchd == old(curchd)
      ensures forall pack: Pack :: pack in ambset <==>
              pack in old(ambset) || FinishesAs(c, item, curchd + [d], from, pack)
      decreases |c.G[item.prod].body| - |curchd|, 0
    {
      hide ChartOK, FinishesAs;
      var lastpos := |curchd|;
      curchd := curchd + [d];
      ghost var longer := curchd;
      SblChdForest(from);
      curchd := curchd[..lastpos];
      assert longer == curchd + [d];
    }
  }

  lemma NoChild(c: Chart, x: Item, chosen: Pack, to: nat)
    requires ChartOK(c) && x.prod < |c.G| && |chosen| < |c.G[x.prod].body| && x.from <= to <= |c.w|
    requires var l := c.G[x.prod].body[|c.G[x.prod].body| - 1 - |chosen|]; l.T? && !(to > x.from && c.w[to - 1] == l.c)
    ensures forall pack: Pack :: !FinishesAs(c, x, chosen, to, pack)
  {
    forall pack: Pack ensures !FinishesAs(c, x, chosen, to, pack) {
      if |pack| == |c.G[x.prod].body| {
        FinishesNext(c, x, chosen, to, pack);
      }
    }
  }

  lemma OneChild(c: Chart, x: Item, chosen: Pack, to: nat, from: nat)
    requires ChartOK(c) && x.prod < |c.G| && |chosen| < |c.G[x.prod].body| && x.from <= from <= to <= |c.w|
    requires var l := c.G[x.prod].body[|c.G[x.prod].body| - 1 - |chosen|];
             !l.NT? && (l.Null? ==> from == to) && (l.T? ==> from + 1 == to && c.w[from] == l.c)
    ensures var l := c.G[x.prod].body[|c.G[x.prod].body| - 1 - |chosen|];
            forall pack: Pack :: FinishesAs(c, x, chosen, to, pack) <==>
                FinishesAs(c, x, chosen + [PNode(l, from, to)], from, pack)
  {
    var n := |c.G[x.prod].body| - |chosen|;
    var l := c.G[x.prod].body[n - 1];
    var d := PNode(l, from, to);
    forall pack: Pack ensures FinishesAs(c, x, chosen, to, pack) <==> FinishesAs(c, x, chosen + [d], from, pack) {
      if |pack| == |c.G[x.prod].body| {
        FinishesNext(c, x, chosen, to, pack);
        if FinishesAs(c, x, chosen + [d], from, pack) {
          LastChosen(c, x, chosen, d, from, pack);
        }
      }
    }
  }

  lemma LastChosen(c: Chart, x: Item, chosen: Pack, d: PNode, from: nat, pack: Pack)
    requires x.prod < |c.G| && |chosen| < |c.G[x.prod].body| && FinishesAs(c, x, chosen + [d], from, pack)
    ensures pack[|c.G[x.prod].body| - |chosen| - 1] == d
  {
    var n := |c.G[x.prod].body| - |chosen| - 1;
    assert pack[n..][0] == pack[n];
    assert Reversed(chosen + [d])[0] == d;
  }

  /** A pack found through one of the entries looked at so far. */
  ghost predicate ViaRow(c: Chart, x: Item, chosen: Pack, to: nat, row: seq<Item>, pack: Pack)
    requires x.prod < |c.G| && |chosen| < |c.G[x.prod].body|
  {
    var l := c.G[x.prod].body[|c.G[x.prod].body| - 1 - |chosen|];
    l.NT? && exists v :: && v in row && Spans(c, v, l.n) && v.from >= x.from
                         && FinishesAs(c, x, chosen + [PNode(l, v.from, to)], v.from, pack)
  }

  lemma RowEntry(c: Chart, to: nat, k: nat)
    requires ChartOK(c) && to < |c.S| && k < |c.S[to]|
    ensures c.S[to][k].from <= to
  {
  }

  lemma RowStep(c: Chart, x: Item, chosen: Pack, to: nat, row: seq<Item>, k: nat, before: set<Pack>, now: set<Pack>,
          was: set<Pack>)
    requires x.prod < |c.G| && |chosen| < |c.G[x.prod].body| && k < |row|
    requires c.G[x.prod].body[|c.G[x.prod].body| - 1 - |chosen|].NT?
    requires forall pack: Pack :: pack in before <==> pack in was || ViaRow(c, x, chosen, to, row[..k], pack)
    requires var l := c.G[x.prod].body[|c.G[x.prod].body| - 1 - |chosen|]; var v := row[k];
             if Spans(c, v, l.n) && v.from >= x.from then
               forall pack: Pack :: pack in now <==>
                   pack in before || FinishesAs(c, x, chosen + [PNode(l, v.from, to)], v.from, pack)
             else now == before
    ensures forall pack: Pack :: pack in now <==> pack in was || ViaRow(c, x, chosen, to, row[..k + 1], pack)
  {
    hide FinishesAs, Spans;
    assert row[..k + 1] == row[..k] + [row[k]];
    forall pack: Pack ensures pack in now <==> pack in was || ViaRow(c, x, chosen, to, row[..k + 1], pack) {
      assert pack in before <==> pack in was || ViaRow(c, x, chosen, to, row[..k], pack);
    }
  }

  lemma RowDone(c: Chart, x: Item, chosen: Pack, to: nat, row: seq<Item>)
    requires ChartOK(c) && x.prod < |c.G| && |chosen| < |c.G[x.prod].body| && row == if to < |c.S| then c.S[to] else []
    requires c.G[x.prod].body[|c.G[x.prod].body| - 1 - |chosen|].NT?
    ensures row[..|row|] == row
    ensures forall pack: Pack :: ViaRow(c, x, chosen, to, row, pack) <==> FinishesAs(c, x, chosen, to, pack)
  {
    hide ChartOK, FinishesAs, ViaRow;
    forall pack: Pack ensures ViaRow(c, x, chosen, to, row, pack) <==> FinishesAs(c, x, chosen, to, pack) {
      if ViaRow(c, x, chosen, to, row, pack) {
        FromRow(c, x, chosen, to, row, pack);
      }
      if FinishesAs(c, x, chosen, to, pack) {
        InRow(c, x, chosen, to, row, pack);
      }
    }
  }

  lemma FromRow(c: Chart, x: Item, chosen: Pack, to: nat, row: seq<Item>, pack: Pack)
    requires ChartOK(c) && x.prod < |c.G| && |chosen| < |c.G[x.prod].body| && row == if to < |c.S| then c.S[to] else []
    requires ViaRow(c, x, chosen, to, row, pack)
    ensures FinishesAs(c, x, chosen, to, pack)
  {
    hide ChartOK, FinishesAs;
    var l := c.G[x.prod].body[|c.G[x.prod].body| - 1 - |chosen|];
    var v: Item :| v in row && Spans(c, v, l.n) && v.from >= x.from
        && FinishesAs(c, x, chosen + [PNode(l, v.from, to)], v.from, pack);
    FinishedLength(c, x, chosen + [PNode(l, v.from, to)], v.from, pack);
    LastChosen(c, x, chosen, PNode(l, v.from, to), v.from, pack);
    FinishesNext(c, x, chosen, to, pack);
  }

  lemma InRow(c: Chart, x: Item, chosen: Pack, to: nat, row: seq<Item>, pack: Pack)
    requires ChartOK(c) && x.prod < |c.G| && |chosen| < |c.G[x.prod].body| && row == if to < |c.S| then c.S[to] else []
    requires c.G[x.prod].body[|c.G[x.prod].body| - 1 - |chosen|].NT? && FinishesAs(c, x, chosen, to, pack)
    ensures ViaRow(c, x, chosen, to, row, pack)
  {
    hide ChartOK, FinishesAs;
    var l := c.G[x.prod].body[|c.G[x.prod].body| - 1 - |chosen|];
    FinishedLength(c, x, chosen, to, pack);
    FinishesNext(c, x, chosen, to, pack);
    var d := pack[|pack| - |chosen| - 1];
    var v: Item :| v in c.S[to] && Spans(c, v, l.n) && v.from == d.from;
    assert v in row && d == PNode(l, v.from, to);
  }

  lemma FinishedLength(c: Chart, x: Item, chosen: Pack, to: nat, pack: Pack)
    requires x.prod < |c.G| && |chosen| <= |c.G[x.prod].body| && FinishesAs(c, x, chosen, to, pack)
    ensures |pack| == |c.G[x.prod].body|
  {
  }

  /** The packs of an item are exactly the tilings of its span. */
  method ChildPacks(c: Chart, x: Item) returns (packs: set<Pack>)
    requires ChartOK(c) && x.prod < |c.G| && x.from <= x.at <= |c.w|
    ensures forall pack: Pack :: pack in packs <==> ChildrenOf(c, x, pack)
  {
    var f := new ChildForest(c, x);
    f.SblChdForest(x.at);
    packs := f.ambset;
    forall pack: Pack ensures FinishesAs(c, x, [], x.at, pack) <==> ChildrenOf(c, x, pack) {
      var body := c.G[x.prod].body;
      assert body[..|body|] == body;
      if |pack| == |body| {
        assert pack[..|body|] == pack && pack[|body|..] == [];
      }
      assert Reversed([]) == [];
    }
  }
}
