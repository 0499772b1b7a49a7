/** Which children a finished chart gives each node of the tree: one chosen pack, or all of them in order. */
module ChartPlans {
  import opened Options
  import opened Grammars
  import opened EarleyItems
  import opened ChildTilings
  import opened Disambiguation

  // ---- packs are kept in an ordered set

  /** Nodes are ordered by their hashes, then terminals before nonterminals, `null` as the terminal 0, then by span; the
      last place only tells `null` from a real 0. */
  function NodeCode(hash: PNode -> int, d: PNode): (s: seq<int>)
    ensures |s| == 6
  {
    match d.lit
    case Null => [hash(d), 0, 0, d.from, d.to, 0]
    case T(c) => [hash(d), 0, c, d.from, d.to, 1]
    case NT(n) => [hash(d), 1, n, d.from, d.to, 0]
  }

  function Code(hash: PNode -> int, p: Pack): (s: seq<int>) {
    if p == [] then [] else NodeCode(hash, p[0]) + Code(hash, p[1..])
  }

  predicate Before(a: seq<int>, b: seq<int>) {
    b != [] && (a == [] || a[0] < b[0] || (a[0] == b[0] && Before(a[1..], b[1..])))
  }

  lemma {:induction false} CodeTells(hash: PNode -> int, p: Pack, q: Pack)
    ensures Code(hash, p) == Code(hash, q) ==> p == q
    decreases |p|
  {
    if p != [] && q != [] && Code(hash, p) == Code(hash, q) {
      assert Code(hash, p)[..6] == NodeCode(hash, p[0]) && Code(hash, q)[..6] == NodeCode(hash, q[0]);
      assert Code(hash, p)[6..] == Code(hash, p[1..]) && Code(hash, q)[6..] == Code(hash, q[1..]);
      var a, b := NodeCode(hash, p[0]), NodeCode(hash, q[0]);
      assert a[1] == b[1] && a[2] == b[2] && a[3] == b[3] && a[4] == b[4] && a[5] == b[5];
      CodeTells(hash, p[1..], q[1..]);
      assert p == [p[0]] + p[1..] && q == [q[0]] + q[1..];
    }
  }

  lemma {:induction false} BeforeIsOrder(a: seq<int>, b: seq<int>)
    ensures a == b || Before(a, b) || Before(b, a)
    ensures Before(a, b) ==> a != b && !Before(b, a)
    decreases |a|
  {
    if a != [] && b != [] {
      BeforeIsOrder(a[1..], b[1..]);
      assert a == [a[0]] + a[1..] && b == [b[0]] + b[1..];
    }
  }

  lemma {:induction false} BeforeTransitive(a: seq<int>, b: seq<int>, c: seq<int>)
    requires Before(a, b) && Before(b, c)
    ensures Before(a, c)
    decreases |a|
  {
    if a != [] && a[0] == b[0] == c[0] {
      BeforeTransitive(a[1..], b[1..], c[1..]);
    }
  }

  ghost predicate First(hash: PNode -> int, packs: set<Pack>, p: Pack) {
    p in packs && forall q :: q in packs && q != p ==> Before(Code(hash, p), Code(hash, q))
  }

  lemma FirstIsUnique(hash: PNode -> int, packs: set<Pack>, p: Pack, q: Pack)
    requires First(hash, packs, p) && First(hash, packs, q)
    ensures p == q
  {
    BeforeIsOrder(Code(hash, p), Code(hash, q));
  }

  /** One more pack: it comes first, or what came first still does. */
  lemma FirstOfMore(hash: PNode -> int, packs: set<Pack>, first: Pack, p: Pack)
    requires First(hash, packs, first) && p !in packs
    ensures First(hash, packs + {p}, if Before(Code(hash, p), Code(hash, first)) then p else first)
  {
    if Before(Code(hash, p), Code(hash, first)) {
      forall q | q in packs && q != first ensures Before(Code(hash, p), Code(hash, q)) {
        BeforeTransitive(Code(hash, p), Code(hash, first), Code(hash, q));
      }
    } else {
      BeforeIsOrder(Code(hash, p), Code(hash, first));
      CodeTells(hash, p, first);
    }
  }

  lemma {:induction false} FirstExists(hash: PNode -> int, packs: set<Pack>)
    requires packs != {}
    ensures exists p :: First(hash, packs, p)
    decreases packs
  {
    hide Before, Code;
    var q :| q in packs;
    if packs == {q} {
      assert First(hash, packs, q);
    } else {
      FirstExists(hash, packs - {q});
      var p :| First(hash, packs - {q}, p);
      FirstOfMore(hash, packs - {q}, p, q);
      assert packs - {q} + {q} == packs;
    }
  }

  ghost function FirstOf(hash: PNode -> int, packs: set<Pack>): (p: Pack)
    requires packs != {}
    ensures First(hash, packs, p)
  {
    FirstExists(hash, packs);
    var p :| First(hash, packs, p);
    p
  }

  /** The packs of a set in order. */
  ghost function Listing(hash: PNode -> int, packs: set<Pack>): (s: seq<Pack>)
    ensures forall p :: p in s <==> p in packs
    ensures s == [] <==> packs == {}
    decreases packs
  {
    if packs == {} then []
    else
      var p := FirstOf(hash, packs);
      [p] + Listing(hash, packs - {p})
  }

  method TakeFirst(hash: PNode -> int, packs: set<Pack>) returns (first: Pack)
    requires packs != {}
    ensures First(hash, packs, first)
  {
    hide Before, Code;
    first :| first in packs;
    var rest := packs - {first};
    ghost var seen := {first};
    while rest != {}
      invariant rest <= packs && seen == packs - rest && First(hash, seen, first)
      decreases |rest|
    {
      var p :| p in rest;
      FirstOfMore(hash, seen, first, p);
      rest := rest - {p};
      seen := seen + {p};
      if Before(Code(hash, p), Code(hash, first)) {
        first := p;
      }
    }
    assert seen == packs;
  }

  lemma NothingListed(hash: PNode -> int)
    ensures Listing(hash, {}) == []
  {
  }

  lemma NextListed(hash: PNode -> int, packs: set<Pack>, p: Pack)
    requires First(hash, packs, p)
    ensures Listing(hash, packs) == [p] + Listing(hash, packs - {p})
  {
    hide Before, Code;
    FirstIsUnique(hash, packs, p, FirstOf(hash, packs));
  }

  /** Goes through the set in its order. */
  method InOrder(hash: PNode -> int, packs: set<Pack>) returns (s: seq<Pack>)
    ensures s == Listing(hash, packs)
  {
    hide First, Listing;
    s := [];
    var rest := packs;
    NothingListed(hash);
    while rest != {}
      invariant rest <= packs && s + Listing(hash, rest) == Listing(hash, packs)
      decreases |rest|
    {
      var p := TakeFirst(hash, rest);
      NextListed(hash, rest, p);
      s := s + [p];
      rest := rest - {p};
    }
  }

  // ---- the order, told of nodes

  function Value(l: Lit): int {
    match l
    case Null => 0
    case T(c) => c
    case NT(n) => n
  }

  /** The smaller hash decides; among equal hashes a terminal comes before a nonterminal, then the smaller value, then
      the earlier start, then the earlier end, and last `null` before a real 0. */
  predicate NodeBefore(hash: PNode -> int, d: PNode, e: PNode) {
    if hash(d) != hash(e) then hash(d) < hash(e)
    else if d.lit.NT? != e.lit.NT? then e.lit.NT?
    else if Value(d.lit) != Value(e.lit) then Value(d.lit) < Value(e.lit)
    else if d.from != e.from then d.from < e.from
    else if d.to != e.to then d.to < e.to
    else d.lit.Null? && e.lit.T?
  }

  /** A pack comes before those it begins, and before those with a later node where they first differ. */
  ghost predicate PackBefore(hash: PNode -> int, p: Pack, q: Pack) {
    (|p| < |q| && q[..|p|] == p) || exists k :: NodeDiffers(hash, p, q, k)
  }

  ghost predicate NodeDiffers(hash: PNode -> int, p: Pack, q: Pack, k: int) {
    0 <= k < |p| && k < |q| && p[..k] == q[..k] && NodeBefore(hash, p[k], q[k])
  }

  lemma {:induction false} BeforeJoins(a: seq<int>, b: seq<int>, s: seq<int>, t: seq<int>)
    requires |a| == |b|
    ensures Before(a + s, b + t) <==> Before(a, b) || (a == b && Before(s, t))
    decreases |a|
  {
    if a == [] {
      assert a + s == s && b + t == t;
    } else {
      BeforeJoins(a[1..], b[1..], s, t);
      assert (a + s)[1..] == a[1..] + s && (b + t)[1..] == b[1..] + t;
      assert a == [a[0]] + a[1..] && b == [b[0]] + b[1..];
    }
  }

  lemma OneBefore(x: int, y: int)
    ensures Before([x], [y]) <==> x < y
  {
    assert [x][1..] == [] && [y][1..] == [];
  }

  lemma SixBefore(a: seq<int>, b: seq<int>, k: nat)
    requires |a| == |b| && k < |a|
    ensures Before(a[k..], b[k..]) <==> a[k] < b[k] || (a[k] == b[k] && Before(a[k + 1..], b[k + 1..]))
  {
    assert a[k..][1..] == a[k + 1..] && b[k..][1..] == b[k + 1..];
  }

  lemma CodesCompare(a: seq<int>, b: seq<int>)
    requires |a| == 6 && |b| == 6
    ensures Before(a, b) <==>
            if a[0] != b[0] then a[0] < b[0]
            else if a[1] != b[1] then a[1] < b[1]
            else if a[2] != b[2] then a[2] < b[2]
            else if a[3] != b[3] then a[3] < b[3]
            else if a[4] != b[4] then a[4] < b[4]
            else a[5] < b[5]
  {
    hide Before;
    assert a[0..] == a && b[0..] == b;
    SixBefore(a, b, 0);
    SixBefore(a, b, 1);
    SixBefore(a, b, 2);
    SixBefore(a, b, 3);
    SixBefore(a, b, 4);
    assert a[5..] == [a[5]] && b[5..] == [b[5]];
    OneBefore(a[5], b[5]);
  }

  lemma NodeCodeMeans(hash: PNode -> int, d: PNode, e: PNode)
    ensures Before(NodeCode(hash, d), NodeCode(hash, e)) <==> NodeBefore(hash, d, e)
    ensures NodeCode(hash, d) == NodeCode(hash, e) <==> d == e
  {
    hide Before;
    var a, b := NodeCode(hash, d), NodeCode(hash, e);
    CodesCompare(a, b);
    assert a[1] == b[1] && a[2] == b[2] && a[3] == b[3] && a[4] == b[4] && a[5] == b[5] ==> d == e;
  }

  lemma {:induction false} CodeMeans(hash: PNode -> int, p: Pack, q: Pack)
    ensures Before(Code(hash, p), Code(hash, q)) <==> PackBefore(hash, p, q)
    decreases |p|
  {
    hide Before, NodeBefore;
    if p != [] && q != [] {
      CodeMeans(hash, p[1..], q[1..]);
      NodeCodeMeans(hash, p[0], q[0]);
      BeforeJoins(NodeCode(hash, p[0]), NodeCode(hash, q[0]), Code(hash, p[1..]), Code(hash, q[1..]));
      PackBeforeNext(hash, p, q);
    } else {
      EmptyBefore(hash, p, q);
    }
  }

  lemma EmptyBefore(hash: PNode -> int, p: Pack, q: Pack)
    requires p == [] || q == []
    ensures Before(Code(hash, p), Code(hash, q)) <==> PackBefore(hash, p, q)
  {
  }

  lemma PackBeforeNext(hash: PNode -> int, p: Pack, q: Pack)
    requires p != [] && q != []
    ensures PackBefore(hash, p, q) <==>
            NodeBefore(hash, p[0], q[0]) || (p[0] == q[0] && PackBefore(hash, p[1..], q[1..]))
  {
    hide NodeBefore;
    assert p == [p[0]] + p[1..] && q == [q[0]] + q[1..];
    if NodeBefore(hash, p[0], q[0]) {
      assert NodeDiffers(hash, p, q, 0);
    }
    if k :| NodeDiffers(hash, p, q, k) && k > 0 {
      assert p[..k][0] == p[0] && q[..k][0] == q[0] && p[1..][..k - 1] == p[..k][1..] && q[1..][..k - 1] == q[..k][1..];
      assert NodeDiffers(hash, p[1..], q[1..], k - 1);
    }
    if p[0] == q[0] {
      if k :| NodeDiffers(hash, p[1..], q[1..], k) {
        assert p[..k + 1] == [p[0]] + p[1..][..k] && q[..k + 1] == [q[0]] + q[1..][..k];
        assert NodeDiffers(hash, p, q, k + 1);
      }
      if |p| < |q| {
        assert q[..|p|] == [q[0]] + q[1..][..|p| - 1];
      }
    }
  }

  /** Every pack of the list comes before those that follow it. */
  ghost predicate Ordered(hash: PNode -> int, s: seq<Pack>) {
    forall i, j :: 0 <= i < j < |s| ==> PackBefore(hash, s[i], s[j])
  }

  lemma {:induction false} ListingOrdered(hash: PNode -> int, packs: set<Pack>)
    ensures Ordered(hash, Listing(hash, packs))
    decreases packs
  {
    hide Before, Code, PackBefore;
    if packs != {} {
      var p := FirstOf(hash, packs);
      ListingOrdered(hash, packs - {p});
      forall q | q in packs - {p} ensures PackBefore(hash, p, q) {
        CodeMeans(hash, p, q);
      }
    }
  }

  // ---- all packs of a node, as a finite set

  ghost function TilingsOf(c: Chart, body: seq<Lit>, i: nat, j: nat): set<Pack>
    decreases |body|
  {
    if body == [] then (if i == j then {[]} else {})
    else
      var m := |body| - 1;
      set k: nat, p: Pack | i <= k <= j && p in TilingsOf(c, body[..m], i, k)
          && ChildOK(c, body[m], PNode(body[m], k, j)) ::
        p + [PNode(body[m], k, j)]
  }

  lemma NothingTiled(c: Chart, pack: Pack, i: nat, j: nat)
    ensures Tiles(c, [], pack, i, j) <==> pack == [] && i == j
  {
  }

  lemma TilesLength(c: Chart, body: seq<Lit>, pack: Pack, i: nat, j: nat)
    requires Tiles(c, body, pack, i, j)
    ensures |pack| == |body|
  {
  }

  lemma ChildIs(c: Chart, l: Lit, d: PNode)
    requires ChildOK(c, l, d)
    ensures d.lit == l
  {
  }

  lemma {:induction false} TilingsOfExact(c: Chart, body: seq<Lit>, i: nat, j: nat, pack: Pack)
    requires ChartOK(c)
    ensures pack in TilingsOf(c, body, i, j) <==> Tiles(c, body, pack, i, j)
    decreases |body|
  {
    hide Tiles, ChildOK, ChartOK;
    if body == [] {
      NothingTiled(c, pack, i, j);
    } else {
      var m := |body| - 1;
      if pack in TilingsOf(c, body, i, j) {
        var k: nat, p: Pack :| i <= k <= j && p in TilingsOf(c, body[..m], i, k)
            && ChildOK(c, body[m], PNode(body[m], k, j))
                               && pack == p + [PNode(body[m], k, j)];
        TilingsOfExact(c, body[..m], i, k, p);
        TilesLength(c, body[..m], p, i, k);
        assert pack[..m] == p;
        TilesLonger(c, body, pack, i);
      }
      if Tiles(c, body, pack, i, j) {
        TilesLength(c, body, pack, i, j);
        TilesShorter(c, body, pack, i, j);
        TilesForwards(c, body, pack, i, j, m);
        TilingsOfExact(c, body[..m], i, pack[m].from, pack[..m]);
        ChildIs(c, body[m], pack[m]);
        assert pack == pack[..m] + [PNode(body[m], pack[m].from, j)];
      }
    }
  }

  ghost predicate ItemFor(c: Chart, n: PNode, p: nat) {
    && p < |c.G| && n.lit == NT(c.G[p].head) && n.to < |c.S|
    && Item(n.to, p, n.from, |c.G[p].body|) in c.S[n.to]
  }

  ghost function NodePacks(c: Chart, n: PNode): set<Pack> {
    set p: nat, pack: Pack | p < |c.G| && ItemFor(c, n, p) && pack in TilingsOf(c, c.G[p].body, n.from, n.to) :: pack
  }

  lemma NodePacksExact(c: Chart, n: PNode)
    requires ChartOK(c)
    ensures AllPacks(c, n, NodePacks(c, n))
  {
    hide Tiles, TilingsOf;
    forall pack ensures pack in NodePacks(c, n) <==> exists p: nat :: TilesBy(c, n, p, pack) {
      if pack in NodePacks(c, n) {
        var p: nat :| p < |c.G| && ItemFor(c, n, p) && pack in TilingsOf(c, c.G[p].body, n.from, n.to);
        TilingsOfExact(c, c.G[p].body, n.from, n.to, pack);
        assert TilesBy(c, n, p, pack);
      }
      if p: nat :| TilesBy(c, n, p, pack) {
        TilingsOfExact(c, c.G[p].body, n.from, n.to, pack);
        assert ItemFor(c, n, p);
      }
    }
  }

  // ---- a choice exists whenever there are packs

  lemma {:induction false} PrecedesTotal(a: Pack, b: Pack, n: nat)
    requires n <= |a| && n <= |b|
    ensures Precedes(a, b, n) || Precedes(b, a, n)
    decreases n
  {
    if n > 0 {
      PrecedesTotal(a, b, n - 1);
    }
  }

  lemma PrecedesTransitive(a: Pack, b: Pack, c: Pack, n: nat)
    requires Precedes(a, b, n) && Precedes(b, c, n)
    ensures Precedes(a, c, n)
  {
    if !(forall k :: 0 <= k < n ==> Width(a[k]) == Width(b[k])) {
      var i :| 0 <= i < n && Width(a[i]) < Width(b[i]) && forall j :: 0 <= j < i ==> Width(a[j]) == Width(b[j]);
      if !(forall k :: 0 <= k < n ==> Width(b[k]) == Width(c[k])) {
        var j :| 0 <= j < n && Width(b[j]) < Width(c[j]) && forall k :: 0 <= k < j ==> Width(b[k]) == Width(c[k]);
        var m := if i < j then i else j;
        assert Width(a[m]) < Width(c[m]);
      }
    }
  }

  lemma {:induction false} SmallestExists(packs: set<Pack>, n: nat)
    requires packs != {} && forall p :: p in packs ==> |p| == n
    ensures exists r :: Smallest(packs, r)
    decreases packs
  {
    hide Precedes;
    var p :| p in packs;
    PrecedesTotal(p, p, n);
    if packs == {p} {
      assert Smallest(packs, p);
    } else {
      var less := packs - {p};
      SmallestExists(less, n);
      var r :| Smallest(less, r);
      PrecedesTotal(r, p, n);
      if Precedes(r, p, n) {
        assert Smallest(packs, r);
      } else {
        forall q | q in packs ensures Precedes(p, q, n) {
          if q != p {
            PrecedesTransitive(p, r, q, n);
          }
        }
        assert Smallest(packs, p);
      }
    }
  }

  lemma {:induction false} LowestPackExists(c: Chart, n: PNode, p: nat) returns (q: nat)
    requires HasPack(c, n, p)
    ensures HasPack(c, n, q) && NoneBelow(c, n, q)
    decreases p
  {
    hide HasPack;
    if m: nat :| m < p && HasPack(c, n, m) {
      q := LowestPackExists(c, n, m);
    } else {
      q := p;
    }
  }

  lemma ChosenExists(c: Chart, n: PNode, p: nat)
    requires ChartOK(c) && HasPack(c, n, p)
    ensures exists r :: Chosen(c, n, r)
  {
    hide Tiles, Precedes, ChartOK, TilingsOf;
    var q := LowestPackExists(c, n, p);
    var body := c.G[q].body;
    var packs := TilingsOf(c, body, n.from, n.to);
    forall pack ensures pack in packs <==> TilesBy(c, n, q, pack) {
      TilingsOfExact(c, body, n.from, n.to, pack);
    }
    forall pack | pack in packs ensures |pack| == |body| {
      TilesLength(c, body, pack, n.from, n.to);
    }
    SmallestExists(packs, |body|);
    var r :| Smallest(packs, r);
    assert Chosen(c, n, r);
  }

  // ---- the plan

  /** What a tree is built from: the packs kept for a node (several when an ambiguity is kept), and whether a node is
      an EBNF helper, which gets no node of its own. */
  datatype Plan = Plan(packs: PNode -> seq<Pack>, ebnf: PNode -> bool)

  /** What the program is asked for: the chart, the order of the packs, the nodes it may disambiguate, the helpers. */
  datatype Request = Request(c: Chart, hash: PNode -> int, allowed: PNode -> bool, ebnf: PNode -> bool)

  ghost function PacksOf(o: Request, n: PNode): seq<Pack> {
    if !o.allowed(n) then Listing(o.hash, NodePacks(o.c, n))
    else if r :| Chosen(o.c, n, r) then [r]
    else []
  }

  /** The chart's plan: where disambiguation is allowed the chosen pack, elsewhere all packs. */
  ghost function PlanOf(o: Request): Plan {
    Plan(n => PacksOf(o, n), o.ebnf)
  }

  /** The packs of one node, found by searching the chart. */
  method PacksFor(o: Request, n: PNode) returns (ps: seq<Pack>)
    requires ChartOK(o.c) && n.lit.NT? && n.to <= |o.c.w| && |o.c.w| < SIZE_MAX && |o.c.G| <= SIZE_MAX
    ensures ps == PacksOf(o, n)
    ensures o.allowed(n) ==> if ps == [] then forall p: nat, pack :: !TilesBy(o.c, n, p, pack)
                             else |ps| == 1 && Picked(o.c, n, ps[0])
    ensures !o.allowed(n) ==> Ordered(o.hash, ps) && forall pack :: pack in ps <==>
            exists p: nat :: TilesBy(o.c, n, p, pack)
  {
    hide ChartOK, Chosen, LowestProduction, Smallest, TilesBy, Tiles, NodePacks, Ordered, Picked;
    var packs := CollectPacks(o.c, n, o.allowed(n));
    if !o.allowed(n) {
      NodePacksExact(o.c, n);
      SamePacks(o.c, n, packs, NodePacks(o.c, n));
      ps := InOrder(o.hash, packs);
      ListingOrdered(o.hash, packs);
      return;
    }
    PacksCompare(o.c, n, packs);
    if packs == {} {
      NothingChosen(o.c, n);
      NothingTiles(o.c, n);
      return [];
    }
    var r := PickBest(packs);
    SmallestIsChosen(o.c, n, packs, r);
    forall s | Chosen(o.c, n, s) ensures s == r {
      ChosenIsUnique(o.c, n, r, s);
    }
    ps := [r];
    ChosenMeans(o.c, n, r);
  }

  lemma SamePacks(c: Chart, n: PNode, a: set<Pack>, b: set<Pack>)
    requires AllPacks(c, n, a) && AllPacks(c, n, b)
    ensures a == b
  {
    hide TilesBy;
  }

  lemma NothingTiles(c: Chart, n: PNode)
    requires forall p: nat :: !HasPack(c, n, p)
    ensures forall p: nat, pack :: !TilesBy(c, n, p, pack)
  {
    hide TilesBy;
    forall p: nat, pack ensures !TilesBy(c, n, p, pack) {
      assert !HasPack(c, n, p);
    }
  }

  lemma NothingChosen(c: Chart, n: PNode)
    requires forall p: nat :: !HasPack(c, n, p)
    ensures forall r :: !Chosen(c, n, r)
  {
    forall r ensures !Chosen(c, n, r) {
      ChosenHasPack(c, n, r);
    }
  }

  lemma ChosenHasPack(c: Chart, n: PNode, r: Pack)
    ensures Chosen(c, n, r) ==> exists p: nat :: TilesBy(c, n, p, r) && HasPack(c, n, p)
  {
    hide TilesBy, Precedes;
    if Chosen(c, n, r) {
      var p: nat :| TilesBy(c, n, p, r);
      assert HasPack(c, n, p);
    }
  }
}
