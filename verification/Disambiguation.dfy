/** Choosing one pack of children: two implementations, one choice, whatever the order they look in. */
module Disambiguation {
  import opened Options
  import opened Grammars
  import opened EarleyItems
  import opened ChildTilings

  function Width(d: PNode): int {
    d.to - d.from
  }

  /** Among the first `n` nodes, `a` is narrower at the first place where the widths differ, or nowhere differs. */
  ghost predicate Precedes(a: Pack, b: Pack, n: nat) {
    n <= |a| && n <= |b| &&
    (|| (forall k :: 0 <= k < n ==> Width(a[k]) == Width(b[k]))
     || (exists k :: 0 <= k < n && Width(a[k]) < Width(b[k]) && forall j :: 0 <= j < k ==> Width(a[j]) == Width(b[j])))
  }

  /** The packs of one production: they spell the same body over the same span. */
  ghost predicate OneBody(c: Chart, body: seq<Lit>, i: nat, j: nat, packs: set<Pack>) {
    forall p :: p in packs ==> Tiles(c, body, p, i, j)
  }

  /** `r` has the lexicographically smallest widths of all packs. */
  ghost predicate Smallest(packs: set<Pack>, r: Pack) {
    r in packs && forall p :: p in packs ==> |p| == |r| && Precedes(r, p, |r|)
  }

  /** Tilings of one body with the same widths are the same. */
  lemma {:induction false} WidthsDecide(c: Chart, body: seq<Lit>, i: nat, j: nat, p: Pack, q: Pack, n: nat)
    requires Tiles(c, body, p, i, j) && Tiles(c, body, q, i, j) && n <= |body|
    requires forall k :: 0 <= k < n ==> Width(p[k]) == Width(q[k])
    ensures p[..n] == q[..n]
    decreases n
  {
    if n > 0 {
      WidthsDecide(c, body, i, j, p, q, n - 1);
      assert ChildOK(c, body[n - 1], p[n - 1]) && ChildOK(c, body[n - 1], q[n - 1]);
      if n > 1 {
        assert p[n - 2].to == p[n - 2 + 1].from && q[n - 2].to == q[n - 2 + 1].from;
        assert p[..n - 1][n - 2] == q[..n - 1][n - 2];
      }
      assert p[n - 1] == q[n - 1];
      assert p[..n] == p[..n - 1] + [p[n - 1]] && q[..n] == q[..n - 1] + [q[n - 1]];
    }
  }

  /** There is at most one smallest pack, so it does not matter in which order packs are compared. */
  lemma SmallestIsUnique(c: Chart, body: seq<Lit>, i: nat, j: nat, packs: set<Pack>, p: Pack, q: Pack)
    requires OneBody(c, body, i, j, packs) && Smallest(packs, p) && Smallest(packs, q)
    ensures p == q
  {
    assert Precedes(p, q, |p|) && Precedes(q, p, |p|);
    WidthsDecide(c, body, i, j, p, q, |p|);
    assert p[..|p|] == p && q[..|q|] == q;
  }

  /** Packs of one length, whose widths are machine words below the largest. */
  ghost predicate Comparable(packs: set<Pack>) {
    && (forall p, q :: p in packs && q in packs ==> |p| == |q|)
    && (forall p, m :: p in packs && 0 <= m < |p| ==> Width(p[m]) < SIZE_MAX)
  }

  // ---- narrowing the candidates, one place at a time

  /** The candidates agree on the first `k` widths, and every other pack is wider where it first differs. */
  ghost predicate Narrowed(packs: set<Pack>, cand: seq<Pack>, k: nat, len: nat) {
    && k <= len && cand != [] && (forall p :: p in cand ==> p in packs)
    && (forall p :: p in packs ==> |p| == len)
    && (forall p, q :: p in cand && q in packs ==> Precedes(p, q, k))
    && (forall p, q :: p in cand && q in packs && q !in cand ==> exists m :: 0 <= m < k && Width(p[m]) != Width(q[m]))
    && (forall p, q, m :: p in cand && q in cand && 0 <= m < k ==> Width(p[m]) == Width(q[m]))
  }

  /** `gi` keeps the candidates that are narrowest at place `k`. */
  ghost predicate Narrowest(cand: seq<Pack>, k: nat, gi: seq<Pack>) {
    && gi != [] && (forall p :: p in gi ==> p in cand && k < |p|)
    && (forall p, q :: p in gi && q in cand ==>
        k < |q| && Width(p[k]) <= Width(q[k]) && (q in gi <==> Width(p[k]) == Width(q[k])))
  }

  lemma NarrowedNext(packs: set<Pack>, cand: seq<Pack>, k: nat, len: nat, gi: seq<Pack>)
    requires Narrowed(packs, cand, k, len) && k < len && Narrowest(cand, k, gi)
    ensures Narrowed(packs, gi, k + 1, len)
  {
    hide Precedes;
    forall p, q | p in gi && q in packs
      ensures Precedes(p, q, k + 1) && (q !in gi ==> exists m :: 0 <= m < k + 1 && Width(p[m]) != Width(q[m]))
    {
      PrecedesNext(p, q, k);
    }
  }

  lemma PrecedesNext(p: Pack, q: Pack, k: nat)
    requires Precedes(p, q, k) && k < |p| && k < |q|
    requires (forall m :: 0 <= m < k ==> Width(p[m]) == Width(q[m])) ==> Width(p[k]) <= Width(q[k])
    ensures Precedes(p, q, k + 1)
  {
  }

  lemma NarrowedEnough(packs: set<Pack>, cand: seq<Pack>, k: nat, len: nat, r: Pack)
    requires Narrowed(packs, cand, k, len) && r in cand
    requires k == len || forall p :: p in cand ==> p == r
    ensures Smallest(packs, r)
  {
    forall p | p in packs ensures Precedes(r, p, len) {
      assert Precedes(r, p, k);
      if p !in cand {
        var m :| 0 <= m < k && Width(r[m]) != Width(p[m]);
      }
    }
  }

  /** Lists the packs in some order. */
  method List(packs: set<Pack>) returns (cand: seq<Pack>)
    ensures forall p :: p in cand <==> p in packs
    ensures |cand| == |packs| && forall i, j :: 0 <= i < j < |cand| ==> cand[i] != cand[j]
  {
    cand := [];
    var rest := packs;
    while rest != {}
      invariant rest <= packs && (forall p :: p in cand <==> p in packs && p !in rest)
      invariant |cand| + |rest| == |packs| && forall i, j :: 0 <= i < j < |cand| ==> cand[i] != cand[j]
      decreases |rest|
    {
      var p :| p in rest;
      rest := rest - {p};
      cand := cand + [p];
    }
  }

  /** The smallest length. */
  method ShortestLength(cand: seq<Pack>) returns (maxk: nat)
    requires cand != []
    ensures (forall p :: p in cand ==> maxk <= |p|) && exists p :: p in cand && |p| == maxk
  {
    maxk := |cand[0]|;
    for i := 0 to |cand|
      invariant forall j :: 0 <= j < i ==> maxk <= |cand[j]|
      invariant exists p :: p in cand && |p| == maxk
    {
      if |cand[i]| < maxk {
        maxk := |cand[i]|;
      }
    }
  }

  lemma StartsNarrowed(packs: set<Pack>, cand: seq<Pack>, len: nat)
    requires cand != [] && (forall p :: p in cand <==> p in packs) && forall p :: p in packs ==> |p| == len
    ensures Narrowed(packs, cand, 0, len)
  {
  }

  /** The choice of the tree builder. */
  method PickBest(packs: set<Pack>) returns (r: Pack)
    requires Comparable(packs)
    ensures packs != {} ==> Smallest(packs, r)
    ensures packs == {} ==> r == []
  {
    hide Precedes, Narrowed, Smallest;
    var cand := List(packs);
    if |packs| == 0 {
      return [];
    }
    var maxk := ShortestLength(cand);
    StartsNarrowed(packs, cand, maxk);
    if |packs| == 1 {
      NarrowedEnough(packs, cand, 0, maxk, cand[0]);
      return cand[0];
    }
    var k := 0;
    while k < maxk && |cand| > 1
      invariant 0 <= k <= maxk && Narrowed(packs, cand, k, maxk) && cand != []
    {
      Lengths(packs, cand, k, maxk);
      var gi := KeepNarrowest(cand, k);
      NarrowedNext(packs, cand, k, maxk, gi);
      cand := gi;
      k := k + 1;
    }
    NarrowedEnough(packs, cand, k, maxk, cand[0]);
    return cand[0];
  }

  lemma Lengths(packs: set<Pack>, cand: seq<Pack>, k: nat, len: nat)
    requires Narrowed(packs, cand, k, len) && Comparable(packs)
    ensures forall p :: p in cand ==> |p| == len && forall m :: 0 <= m < len ==> Width(p[m]) < SIZE_MAX
  {
  }

  method KeepNarrowest(cand: seq<Pack>, k: nat) returns (gi: seq<Pack>)
    requires cand != [] && forall p :: p in cand ==> k < |p| && Width(p[k]) < SIZE_MAX
    ensures Narrowest(cand, k, gi)
  {
    gi := [];
    var gspan := SIZE_MAX;
    for i := 0 to |cand|
      invariant i > 0 ==> gi != []
      invariant i == 0 ==> gi == [] && gspan == SIZE_MAX
      invariant forall p :: p in gi ==> p in cand && Width(p[k]) == gspan
      invariant forall j :: 0 <= j < i ==> gspan <= Width(cand[j][k]) && (cand[j] in gi <==> Width(cand[j][k]) == gspan)
    {
      var span := Width(cand[i][k]);
      if span < gspan {
        gspan := span;
        gi := [cand[i]];
      } else if span == gspan {
        gi := gi + [cand[i]];
      }
    }
  }

  /** The choice of the forest builder: the same narrowing, begun before its condition is looked at. */
  method NarrowForest(packs: set<Pack>) returns (r: Pack)
    requires packs != {} && Comparable(packs) && [] !in packs
    ensures Smallest(packs, r)
  {
    hide Precedes, Narrowed, Smallest;
    var cand := List(packs);
    var maxk := ShortestLength(cand);
    StartsNarrowed(packs, cand, maxk);
    Lengths(packs, cand, 0, maxk);
    var k := 0;
    var gi := KeepNarrowestAgain(cand, k);
    NarrowedNext(packs, cand, k, maxk, gi);
    cand := gi;
    k := k + 1;
    while k < maxk && |gi| > 1
      invariant 0 <= k <= maxk && Narrowed(packs, cand, k, maxk) && cand == gi && gi != []
    {
      Lengths(packs, cand, k, maxk);
      gi := KeepNarrowestAgain(cand, k);
      NarrowedNext(packs, cand, k, maxk, gi);
      cand := gi;
      k := k + 1;
    }
    NarrowedEnough(packs, cand, k, maxk, gi[0]);
    return gi[0];
  }

  method KeepNarrowestAgain(cand: seq<Pack>, k: nat) returns (gi: seq<Pack>)
    requires cand != [] && forall p :: p in cand ==> k < |p| && Width(p[k]) < SIZE_MAX
    ensures Narrowest(cand, k, gi)
  {
    gi := [];
    var gspan := SIZE_MAX;
    for i := 0 to |cand|
      invariant i > 0 ==> gi != []
      invariant i == 0 ==> gi == [] && gspan == SIZE_MAX
      invariant forall p :: p in gi ==> p in cand && Width(p[k]) == gspan
      invariant forall j :: 0 <= j < i ==> gspan <= Width(cand[j][k]) && (cand[j] in gi <==> Width(cand[j][k]) == gspan)
    {
      var span := Width(cand[i][k]);
      if gspan == span {
        gi := gi + [cand[i]];
      }
      if gspan > span {
        gspan := span;
        gi := [cand[i]];
      }
    }
  }

  // ---- across productions

  /** A pack of production `p` for a node: the item that completes the production over the node's span has it. */
  ghost predicate TilesBy(c: Chart, node: PNode, p: nat, pack: Pack) {
    && p < |c.G| && node.lit == NT(c.G[p].head) && node.to < |c.S|
    && Item(node.to, p, node.from, |c.G[p].body|) in c.S[node.to]
    && Tiles(c, c.G[p].body, pack, node.from, node.to)
  }

  ghost predicate HasPack(c: Chart, node: PNode, p: nat) {
    exists pack :: TilesBy(c, node, p, pack)
  }

  ghost predicate NoneBelow(c: Chart, node: PNode, p: nat) {
    forall q: nat :: q < p ==> !HasPack(c, node, q)
  }

  /** The packs of the lowest production that has any. */
  ghost predicate LowestProduction(c: Chart, node: PNode, packs: set<Pack>) {
    forall pack :: pack in packs <==> exists p: nat :: TilesBy(c, node, p, pack) && NoneBelow(c, node, p)
  }

  ghost predicate AllPacks(c: Chart, node: PNode, packs: set<Pack>) {
    forall pack :: pack in packs <==> exists p: nat :: TilesBy(c, node, p, pack)
  }

  /** Which of the items looked at so far has the lowest production with packs, if any. */
  ghost predicate LowestSoFar(c: Chart, node: PNode, seen: set<nat>, best: int, packs: set<Pack>) {
    && (packs == {} ==> best == SIZE_MAX && forall p :: p in seen ==> !HasPack(c, node, p))
    && (packs != {} ==> 0 <= best && best in seen && (forall pack :: pack in packs <==> TilesBy(c, node, best, pack))
                        && forall p :: p in seen && HasPack(c, node, p) ==> best <= p)
  }

  lemma LowestOfAll(c: Chart, node: PNode, seen: set<nat>, best: int, packs: set<Pack>)
    requires LowestSoFar(c, node, seen, best, packs) && forall p: nat :: HasPack(c, node, p) ==> p in seen
    ensures LowestProduction(c, node, packs)
  {
    hide TilesBy;
    forall pack ensures pack in packs <==> exists p: nat :: TilesBy(c, node, p, pack) && NoneBelow(c, node, p) {
      if pack in packs {
        assert TilesBy(c, node, best, pack);
      }
      if p: nat :| TilesBy(c, node, p, pack) && NoneBelow(c, node, p) {
        assert HasPack(c, node, p) && p in seen;
        if pk :| pk in packs {
          assert TilesBy(c, node, best, pk);
          assert HasPack(c, node, best);
        }
      }
    }
  }

  /** Whether an item completes the node. */
  predicate Matches(c: Chart, node: PNode, x: Item) {
    node.lit.NT? && x.from == node.from && Spans(c, x, node.lit.n)
  }

  lemma ItemHasPacks(c: Chart, node: PNode, x: Item, pack: Pack)
    requires ChartOK(c) && node.to < |c.S| && x in c.S[node.to] && Matches(c, node, x)
    ensures ChildrenOf(c, x, pack) <==> TilesBy(c, node, x.prod, pack)
  {
    assert x == Item(node.to, x.prod, node.from, |c.G[x.prod].body|);
  }

  method ItemPacks(c: Chart, node: PNode, x: Item) returns (packs: set<Pack>)
    requires ChartOK(c) && node.to < |c.S| && node.to <= |c.w| && x in c.S[node.to] && Matches(c, node, x)
    ensures forall pack :: pack in packs <==> TilesBy(c, node, x.prod, pack)
    ensures packs == {} <==> !HasPack(c, node, x.prod)
  {
    packs := ChildPacks(c, x);
    forall pack ensures pack in packs <==> TilesBy(c, node, x.prod, pack) {
      ItemHasPacks(c, node, x, pack);
    }
    hide TilesBy;
    if packs != {} {
      ghost var p :| p in packs;
      assert TilesBy(c, node, x.prod, p);
    }
  }

  /** Every production with a pack for the node is among those of the matching items. */
  lemma MatchedAll(c: Chart, node: PNode, items: seq<Item>, seen: set<nat>)
    requires node.to < |c.S| && forall x :: x in c.S[node.to] && Matches(c, node, x) ==> x.prod in seen
    ensures forall p: nat :: HasPack(c, node, p) ==> p in seen
  {
    forall p: nat | HasPack(c, node, p) ensures p in seen {
      var pack :| TilesBy(c, node, p, pack);
      var x := Item(node.to, p, node.from, |c.G[p].body|);
      assert x in c.S[node.to] && Matches(c, node, x);
    }
  }

  ghost function Seen(c: Chart, node: PNode, items: seq<Item>): set<nat> {
    set x | x in items && Matches(c, node, x) :: x.prod
  }

  lemma SeenNext(c: Chart, node: PNode, items: seq<Item>, k: nat)
    requires k < |items|
    ensures Matches(c, node, items[k]) ==> Seen(c, node, items[..k + 1]) == Seen(c, node, items[..k]) + {items[k].prod}
    ensures !Matches(c, node, items[k]) ==> Seen(c, node, items[..k + 1]) == Seen(c, node, items[..k])
  {
    assert items[..k + 1] == items[..k] + [items[k]];
  }

  /** The packs the tree builder collects, items in any order. */
  method CollectPacks(c: Chart, node: PNode, allowed: bool) returns (packs: set<Pack>)
    requires ChartOK(c) && node.lit.NT? && node.to <= |c.w| && |c.G| <= SIZE_MAX
    ensures if allowed then LowestProduction(c, node, packs) else AllPacks(c, node, packs)
  {
    hide ChartOK, TilesBy, HasPack, LowestSoFar, LowestProduction, Matches, AllPacks;
    packs := {};
    if node.to >= |c.S| {
      NoSet(c, node);
      return;
    }
    var row := c.S[node.to];
    if allowed {
      var bestProd := SIZE_MAX;
      NoneSoFar(c, node, row);
      for k := 0 to |row|
        invariant LowestSoFar(c, node, Seen(c, node, row[..k]), bestProd, packs)
      {
        SeenNext(c, node, row, k);
        if Matches(c, node, row[k]) {
          ghost var before, best := packs, bestProd;
          var cur := {};
          ProdFits(c, node.to, k);
          if row[k].prod < bestProd {
            cur := ItemPacks(c, node, row[k]);
            if cur != {} {
              bestProd := row[k].prod;
              packs := cur;
            }
          }
          LowestNext(c, node, Seen(c, node, row[..k]), row[k].prod, best, before, cur, bestProd, packs);
        }
      }
      assert row[..|row|] == row;
      SeenAll(c, node);
      LowestOfAll(c, node, Seen(c, node, row), bestProd, packs);
    } else {
      for k := 0 to |row|
        invariant forall pack :: pack in packs <==>
                  exists p: nat :: p in Seen(c, node, row[..k]) && TilesBy(c, node, p, pack)
      {
        SeenNext(c, node, row, k);
        if Matches(c, node, row[k]) {
          var cur := ItemPacks(c, node, row[k]);
          packs := packs + cur;
        }
      }
      assert row[..|row|] == row;
      SeenAll(c, node);
      AllSeen(c, node, Seen(c, node, row), packs);
    }
  }

  lemma NoSet(c: Chart, node: PNode)
    requires node.to >= |c.S|
    ensures LowestProduction(c, node, {}) && AllPacks(c, node, {})
  {
  }

  lemma NoneSoFar(c: Chart, node: PNode, row: seq<Item>)
    ensures LowestSoFar(c, node, Seen(c, node, row[..0]), SIZE_MAX, {})
  {
  }

  lemma ProdFits(c: Chart, at: nat, k: nat)
    requires ChartOK(c) && at < |c.S| && k < |c.S[at]|
    ensures c.S[at][k].prod < |c.G|
  {
  }

  lemma SeenAll(c: Chart, node: PNode)
    requires node.to < |c.S|
    ensures forall p: nat :: HasPack(c, node, p) ==> p in Seen(c, node, c.S[node.to])
  {
    MatchedAll(c, node, c.S[node.to], Seen(c, node, c.S[node.to]));
  }

  lemma AllSeen(c: Chart, node: PNode, seen: set<nat>, packs: set<Pack>)
    requires forall p: nat :: HasPack(c, node, p) ==> p in seen
    requires forall pack :: pack in packs <==> exists p: nat :: p in seen && TilesBy(c, node, p, pack)
    ensures AllPacks(c, node, packs)
  {
    hide TilesBy;
    forall pack ensures pack in packs <==> exists p: nat :: TilesBy(c, node, p, pack) {
      if p: nat :| TilesBy(c, node, p, pack) {
        assert HasPack(c, node, p);
      }
    }
  }

  /** One more production: it takes over when it has packs and is lower than the best, or the first with any. */
  lemma LowestNext(c: Chart, node: PNode, seen: set<nat>, p: nat, best: int, packs: set<Pack>, cur: set<Pack>,
          best': int, packs': set<Pack>)
    requires LowestSoFar(c, node, seen, best, packs) && p < SIZE_MAX
    requires p < best ==> && (forall pack :: pack in cur <==> TilesBy(c, node, p, pack))
                          && (cur == {} <==> !HasPack(c, node, p))
    requires p >= best || cur == {} ==> best' == best && packs' == packs
    requires p < best && cur != {} ==> best' == p && packs' == cur
    ensures LowestSoFar(c, node, seen + {p}, best', packs')
  {
    hide TilesBy, HasPack;
  }

  // ---- the forest builder: completed items by nonterminal and start, in the order they were indexed

  method CompletedFrom(c: Chart, n: nat, from: nat) returns (items: seq<Item>)
    requires ChartOK(c)
    ensures forall x :: x in items <==> x.at < |c.S| && x in c.S[x.at] && Spans(c, x, n) && x.from == from
  {
    hide ChartOK;
    items := [];
    for k := 0 to |c.S|
      invariant forall x :: x in items <==> x.at < k && x in c.S[x.at] && Spans(c, x, n) && x.from == from
    {
      var row := c.S[k];
      RowAt(c, k);
      for j := 0 to |row|
        invariant forall x :: x in items <==> (x.at < k && x in c.S[x.at] && Spans(c, x, n) && x.from == from)
                                              || (x in row[..j] && Spans(c, x, n) && x.from == from)
      {
        assert row[..j + 1] == row[..j] + [row[j]];
        if Spans(c, row[j], n) && row[j].from == from {
          items := items + [row[j]];
        }
      }
      assert row[..|row|] == row;
    }
  }

  lemma RowAt(c: Chart, k: nat)
    requires ChartOK(c) && k < |c.S|
    ensures forall x :: x in c.S[k] ==> x.at == k
  {
  }

  /** The packs the forest builder keeps for a node it may disambiguate. */
  method ForestPacks(c: Chart, node: PNode) returns (ambset: set<Pack>)
    requires ChartOK(c) && node.lit.NT? && node.to <= |c.w| && node.to < |c.S| && |c.G| <= SIZE_MAX
    ensures LowestProduction(c, node, ambset)
  {
    hide ChartOK, TilesBy, HasPack, LowestSoFar, LowestProduction, Matches, Spans, Seen;
    var nxtset := CompletedFrom(c, node.lit.n, node.from);
    ambset := {};
    var lastP := SIZE_MAX;
    ghost var seen: set<nat> := {};
    NoneSeen(c, node);
    for k := 0 to |nxtset|
      invariant LowestSoFar(c, node, seen, lastP, ambset)
      invariant forall j :: 0 <= j < k && nxtset[j].at == node.to ==> nxtset[j].prod in seen
    {
      var cur := nxtset[k];
      if cur.at == node.to {
        ghost var before, best := ambset, lastP;
        InThatRow(c, node, cur);
        var cambset := ItemPacks(c, node, cur);
        if cambset != {} {
          if ambset == {} {
            lastP := cur.prod;
            ambset := cambset;
          } else if lastP > cur.prod {
            lastP := cur.prod;
            ambset := cambset;
          }
        }
        FirstTakes(c, node, seen, best, before);
        LowestNext(c, node, seen, cur.prod, best, before, cambset, lastP, ambset);
        seen := seen + {cur.prod};
      }
    }
    IndexedAll(c, node, nxtset, seen);
    LowestOfAll(c, node, seen, lastP, ambset);
  }

  lemma NoneSeen(c: Chart, node: PNode)
    ensures LowestSoFar(c, node, {}, SIZE_MAX, {})
  {
  }

  lemma FirstTakes(c: Chart, node: PNode, seen: set<nat>, best: int, packs: set<Pack>)
    requires LowestSoFar(c, node, seen, best, packs)
    ensures packs == {} ==> best == SIZE_MAX
  {
  }

  lemma InThatRow(c: Chart, node: PNode, x: Item)
    requires ChartOK(c) && node.lit.NT? && node.to < |c.S| && x.at == node.to && x in c.S[x.at]
    requires Spans(c, x, node.lit.n) && x.from == node.from
    ensures Matches(c, node, x) && x.prod < |c.G|
  {
  }

  lemma IndexedAll(c: Chart, node: PNode, items: seq<Item>, seen: set<nat>)
    requires ChartOK(c) && node.lit.NT? && node.to < |c.S|
    requires forall x :: x in items <==>
             x.at < |c.S| && x in c.S[x.at] && Spans(c, x, node.lit.n) && x.from == node.from
    requires forall j :: 0 <= j < |items| && items[j].at == node.to ==> items[j].prod in seen
    ensures forall p: nat :: HasPack(c, node, p) ==> p in seen
  {
    forall x | x in c.S[node.to] && Matches(c, node, x) ensures x.prod in seen {
      assert x.at == node.to;
      assert x in items;
    }
    MatchedAll(c, node, items, seen);
  }

  // ---- the choice

  /** The children chosen for a node: lowest production, then smallest widths from the left. */
  ghost predicate Chosen(c: Chart, node: PNode, r: Pack) {
    exists p: nat :: TilesBy(c, node, p, r) && NoneBelow(c, node, p)
                && forall pack :: TilesBy(c, node, p, pack) ==> |pack| == |r| && Precedes(r, pack, |r|)
  }

  /** The packs agree up to a child that ends earlier in `r`. */
  ghost predicate EndsEarlier(r: Pack, q: Pack) {
    exists k :: 0 <= k < |r| && k < |q| && r[..k] == q[..k] && r[k].from == q[k].from && r[k].to < q[k].to
  }

  /** A pack of the lowest production with any, and there the one whose children, from the left, end earliest. */
  ghost predicate Picked(c: Chart, node: PNode, r: Pack) {
    exists p: nat :: && TilesBy(c, node, p, r)
                     && (forall q: nat, pack :: TilesBy(c, node, q, pack) ==> p <= q)
                     && (forall pack :: TilesBy(c, node, p, pack) && pack != r ==> EndsEarlier(r, pack))
  }

  lemma ChosenMeans(c: Chart, node: PNode, r: Pack)
    ensures Chosen(c, node, r) <==> Picked(c, node, r)
  {
    hide Tiles, Precedes, EndsEarlier;
    if Chosen(c, node, r) {
      var p: nat :| TilesBy(c, node, p, r) && NoneBelow(c, node, p)
                && forall pack :: TilesBy(c, node, p, pack) ==> |pack| == |r| && Precedes(r, pack, |r|);
      forall q: nat, pack | TilesBy(c, node, q, pack) ensures p <= q {
        assert HasPack(c, node, q);
      }
      forall pack | TilesBy(c, node, p, pack) && pack != r ensures EndsEarlier(r, pack) {
        NarrowerEndsEarlier(c, c.G[p].body, node.from, node.to, r, pack);
      }
    }
    if Picked(c, node, r) {
      var p: nat :| && TilesBy(c, node, p, r)
                    && (forall q: nat, pack :: TilesBy(c, node, q, pack) ==> p <= q)
                    && (forall pack :: TilesBy(c, node, p, pack) && pack != r ==> EndsEarlier(r, pack));
      forall q: nat | q < p ensures !HasPack(c, node, q) {
      }
      forall pack | TilesBy(c, node, p, pack) ensures |pack| == |r| && Precedes(r, pack, |r|) {
        EarlierPrecedes(c, c.G[p].body, node.from, node.to, r, pack);
      }
    }
  }

  lemma NarrowerEndsEarlier(c: Chart, body: seq<Lit>, i: nat, j: nat, r: Pack, q: Pack)
    requires Tiles(c, body, r, i, j) && Tiles(c, body, q, i, j) && Precedes(r, q, |r|) && r != q
    ensures EndsEarlier(r, q)
  {
    assert r[..|r|] == r && q[..|q|] == q;
    if forall k :: 0 <= k < |r| ==> Width(r[k]) == Width(q[k]) {
      WidthsDecide(c, body, i, j, r, q, |r|);
    } else {
      var k :| 0 <= k < |r| && Width(r[k]) < Width(q[k]) && forall m :: 0 <= m < k ==> Width(r[m]) == Width(q[m]);
      WidthsDecide(c, body, i, j, r, q, k);
      if k > 0 {
        assert r[k - 1].to == r[k - 1 + 1].from && q[k - 1].to == q[k - 1 + 1].from;
        assert r[..k][k - 1] == q[..k][k - 1];
      }
      assert r[k].from == q[k].from && r[k].to < q[k].to;
    }
  }

  lemma EarlierPrecedes(c: Chart, body: seq<Lit>, i: nat, j: nat, r: Pack, q: Pack)
    requires Tiles(c, body, r, i, j) && Tiles(c, body, q, i, j) && (q != r ==> EndsEarlier(r, q))
    ensures |q| == |r| && Precedes(r, q, |r|)
  {
    if q != r {
      var k :| 0 <= k < |r| && k < |q| && r[..k] == q[..k] && r[k].from == q[k].from && r[k].to < q[k].to;
      forall m | 0 <= m < k ensures Width(r[m]) == Width(q[m]) {
        assert r[..k][m] == q[..k][m];
      }
    }
  }

  /** The choice depends on nothing but the chart. */
  lemma ChosenIsUnique(c: Chart, node: PNode, r: Pack, s: Pack)
    requires Chosen(c, node, r) && Chosen(c, node, s)
    ensures r == s
  {
    hide Precedes, Tiles;
    var p: nat :| TilesBy(c, node, p, r) && NoneBelow(c, node, p)
               && forall pack :: TilesBy(c, node, p, pack) ==> |pack| == |r| && Precedes(r, pack, |r|);
    var q: nat :| TilesBy(c, node, q, s) && NoneBelow(c, node, q)
               && forall pack :: TilesBy(c, node, q, pack) ==> |pack| == |s| && Precedes(s, pack, |s|);
    assert HasPack(c, node, p) && HasPack(c, node, q);
    assert p == q;
    SmallestIsUnique(c, c.G[p].body, node.from, node.to, {r, s}, r, s);
  }

  lemma SmallestIsChosen(c: Chart, node: PNode, packs: set<Pack>, r: Pack)
    requires LowestProduction(c, node, packs) && Smallest(packs, r)
    ensures Chosen(c, node, r)
  {
    hide Precedes, TilesBy;
    var p: nat :| TilesBy(c, node, p, r) && NoneBelow(c, node, p);
    assert forall pack :: TilesBy(c, node, p, pack) ==> pack in packs;
  }

  lemma PackFits(c: Chart, node: PNode, p: nat, a: Pack)
    requires ChartOK(c) && TilesBy(c, node, p, a) && node.to < SIZE_MAX
    ensures |a| == |c.G[p].body| && forall m :: 0 <= m < |a| ==> Width(a[m]) < SIZE_MAX
  {
    forall m | 0 <= m < |a| ensures Width(a[m]) < SIZE_MAX {
      TilesInside(c, c.G[p].body, a, node.from, node.to, m);
    }
  }

  lemma PacksCompare(c: Chart, node: PNode, packs: set<Pack>)
    requires ChartOK(c) && LowestProduction(c, node, packs) && node.to < SIZE_MAX
    ensures Comparable(packs)
    ensures packs == {} <==> forall p: nat :: !HasPack(c, node, p)
  {
    hide ChartOK, TilesBy, Width;
    forall a, b | a in packs && b in packs ensures |a| == |b| && forall m :: 0 <= m < |a| ==> Width(a[m]) < SIZE_MAX {
      var p: nat :| TilesBy(c, node, p, a) && NoneBelow(c, node, p);
      var q: nat :| TilesBy(c, node, q, b) && NoneBelow(c, node, q);
      assert HasPack(c, node, p) && HasPack(c, node, q);
      PackFits(c, node, p, a);
      PackFits(c, node, q, b);
    }
    if p: nat :| HasPack(c, node, p) {
      LowestExists(c, node, packs, p);
    }
    if packs != {} {
      var a :| a in packs;
      var p: nat :| TilesBy(c, node, p, a) && NoneBelow(c, node, p);
      assert HasPack(c, node, p);
    }
  }

  lemma {:induction false} TilesInside(c: Chart, body: seq<Lit>, pack: Pack, i: nat, j: nat, k: nat)
    requires ChartOK(c) && Tiles(c, body, pack, i, j) && k < |pack|
    ensures pack[k].to <= j
    decreases |pack| - k
  {
    TilesForwards(c, body, pack, i, j, k);
    if k + 1 < |pack| {
      TilesForwards(c, body, pack, i, j, k + 1);
      TilesInside(c, body, pack, i, j, k + 1);
      assert pack[k].to == pack[k + 1].from;
    }
  }

  lemma {:induction false} LowestExists(c: Chart, node: PNode, packs: set<Pack>, p: nat)
    requires LowestProduction(c, node, packs) && HasPack(c, node, p)
    ensures packs != {}
    decreases p
  {
    if q: nat :| q < p && HasPack(c, node, q) {
      LowestExists(c, node, packs, q);
    } else {
      var pack :| TilesBy(c, node, p, pack);
      assert pack in packs;
    }
  }

  /** What the tree builder chooses. */
  method ChooseForTree(c: Chart, node: PNode) returns (r: Option<Pack>)
    requires ChartOK(c) && node.lit.NT? && node.to <= |c.w| && |c.w| < SIZE_MAX && |c.G| <= SIZE_MAX
    ensures r.Some? ==> Chosen(c, node, r.value)
    ensures r.None? <==> forall p: nat :: !HasPack(c, node, p)
  {
    hide ChartOK, LowestProduction, Chosen, Smallest, HasPack;
    var packs := CollectPacks(c, node, true);
    PacksCompare(c, node, packs);
    if packs == {} {
      return None;
    }
    var best := PickBest(packs);
    SmallestIsChosen(c, node, packs, best);
    return Some(best);
  }

  /** What the forest builder chooses: the same, when no body of the node's nonterminal is empty. */
  method ChooseForForest(c: Chart, node: PNode) returns (r: Option<Pack>)
    requires ChartOK(c) && node.lit.NT? && node.to <= |c.w| && node.to < |c.S| && |c.w| < SIZE_MAX && |c.G| <= SIZE_MAX
    requires forall p :: 0 <= p < |c.G| && c.G[p].head == node.lit.n ==> c.G[p].body != []
    ensures r.Some? ==> Chosen(c, node, r.value)
    ensures r.None? <==> forall p: nat :: !HasPack(c, node, p)
  {
    hide ChartOK, LowestProduction, Chosen, Smallest, HasPack;
    var packs := ForestPacks(c, node);
    PacksCompare(c, node, packs);
    if packs == {} {
      return None;
    }
    NoEmptyPack(c, node, packs);
    var best := NarrowForest(packs);
    SmallestIsChosen(c, node, packs, best);
    return Some(best);
  }

  lemma NoEmptyPack(c: Chart, node: PNode, packs: set<Pack>)
    requires LowestProduction(c, node, packs) && node.lit.NT?
    requires forall p :: 0 <= p < |c.G| && c.G[p].head == node.lit.n ==> c.G[p].body != []
    ensures [] !in packs
  {
  }
}
