/** Negating the body of a rule: a loop that accumulates partial products, and the simplification that drops them. */
module Negation {

  type Body = seq<int>

  /** A sequence of literals, possibly negated. */
  datatype Lits = Lits(body: Body, neg: bool)

  /** Sequences are ordered by their literals alone, so a conjunction has each sequence once, with one sign, and a
      disjunction has one conjunction for each set of sequences. */
  type Conj = map<Body, bool>
  type Disj = set<Conj>

  function Insert(c: Conj, l: Lits): Conj {
    if l.body in c then c else c[l.body := l.neg]
  }

  predicate HasKeys(d: Disj, keys: set<Body>) {
    exists c :: c in d && c.Keys == keys
  }

  function InsertConj(d: Disj, c: Conj): Disj {
    if HasKeys(d, c.Keys) then d else d + {c}
  }

  /** The conjunctions of a disjunction in some order of visiting, each listed sequence by sequence. */
  type Listing = seq<seq<Lits>>

  function ToConj(g: seq<Lits>): Conj {
    if g == [] then map[] else Insert(ToConj(g[..|g| - 1]), g[|g| - 1])
  }

  predicate OneEach(g: seq<Lits>) {
    forall i, j :: 0 <= i < j < |g| ==> g[i].body != g[j].body
  }

  function Flip(l: Lits): Lits {
    Lits(l.body, !l.neg)
  }

  function FlipAll(g: seq<Lits>): (r: seq<Lits>)
    ensures |r| == |g| && forall i :: 0 <= i < |g| ==> r[i] == Flip(g[i])
  {
    seq(|g|, i requires 0 <= i < |g| => Flip(g[i]))
  }

  function FlipEach(gs: Listing): (r: Listing)
    ensures |r| == |gs| && forall i :: 0 <= i < |gs| ==> r[i] == FlipAll(gs[i])
  {
    seq(|gs|, i requires 0 <= i < |gs| => FlipAll(gs[i]))
  }

  function One(l: Lits): Conj {
    map[l.body := l.neg]
  }

  /** The negation of one conjunction: a choice of one flipped sequence. */
  function Singles(g: seq<Lits>): (r: seq<Conj>)
    ensures |r| == |g| && forall i :: 0 <= i < |g| ==> r[i] == One(g[i])
  {
    seq(|g|, i requires 0 <= i < |g| => One(g[i]))
  }

  function InsertEach(cs: seq<Conj>, l: Lits): (r: seq<Conj>)
    ensures |r| == |cs| && forall i :: 0 <= i < |cs| ==> r[i] == Insert(cs[i], l)
  {
    seq(|cs|, i requires 0 <= i < |cs| => Insert(cs[i], l))
  }

  function Products(cs: seq<Conj>, g: seq<Lits>): seq<Conj> {
    if g == [] then [] else Products(cs, g[..|g| - 1]) + InsertEach(cs, g[|g| - 1])
  }

  /** The products after group `i`: the accumulator is never cleared, so those of earlier rounds stay in it. */
  function Accumulated(gs: Listing, i: nat): seq<Conj>
    requires i < |gs|
    decreases i, 0
  {
    if i == 0 then [] else Accumulated(gs, i - 1) + Products(Current(gs, i - 1), gs[i])
  }

  function Current(gs: Listing, i: nat): seq<Conj>
    requires i < |gs|
    decreases i, 1
  {
    if i == 0 then Singles(gs[0]) else Accumulated(gs, i)
  }

  function ToDisj(cs: seq<Conj>): Disj {
    if cs == [] then {} else InsertConj(ToDisj(cs[..|cs| - 1]), cs[|cs| - 1])
  }

  /** Simplification keeps the conjunctions that are not empty and have no proper extension. */
  predicate Maximal(d: Disj, c: Conj) {
    c in d && c != map[] && forall e :: e in d && e != map[] && c.Keys <= e.Keys ==> c.Keys == e.Keys
  }

  function Simplified(d: Disj): Disj {
    set c | c in d && Maximal(d, c)
  }

  /** The negation of the conjunctions listed, already flipped. */
  function Combined(gs: Listing): Disj {
    if |gs| == 0 then {}
    else if |gs| == 1 then ToDisj(Singles(gs[0]))
    else Simplified(ToDisj(Accumulated(gs, |gs| - 1)))
  }

  method Simplify(x: Disj) returns (z: Disj)
    ensures z == Simplified(x)
  {
    var y: Disj := {};
    var rest := x;
    while rest != {}
      invariant rest <= x && y == set c | c in x && c !in rest && c != map[]
      decreases |rest|
    {
      var c :| c in rest;
      rest := rest - {c};
      if c != map[] {
        y := y + {c};
      }
    }
    z := {};
    rest := y;
    while rest != {}
      invariant rest <= y && z == set c | c in y && c !in rest && Maximal(x, c)
      decreases |rest|
    {
      var c :| c in rest;
      rest := rest - {c};
      var longer := exists d :: d in y && c.Keys != d.Keys && c.Keys <= d.Keys;
      if !longer {
        z := z + {c};
      }
    }
  }

  method Multiply(cs: seq<Conj>, next: seq<Lits>, so: seq<Conj>) returns (rcs: seq<Conj>)
    ensures rcs == so + Products(cs, next)
  {
    rcs := so;
    var j := 0;
    while j < |next|
      invariant 0 <= j <= |next| && rcs == so + Products(cs, next[..j])
    {
      assert next[..j + 1][..j] == next[..j];
      ghost var before := rcs;
      var k := 0;
      while k < |cs|
        invariant 0 <= k <= |cs| && rcs == before + InsertEach(cs, next[j])[..k]
      {
        rcs := rcs + [Insert(cs[k], next[j])];
        k := k + 1;
      }
      j := j + 1;
    }
    assert next[..j] == next;
  }

  /** Negates a disjunction whose conjunctions are visited in the order of the listing. */
  method NegateDisj(gs: Listing) returns (r: Disj)
    ensures r == Combined(FlipEach(gs))
  {
    hide Products, ToDisj, Simplified;
    var ncsv := FlipEach(gs);
    if |ncsv| == 0 {
      return {};
    }
    var cs := Singles(ncsv[0]);
    if |ncsv| == 1 {
      return ToDisj(cs);
    }
    var rcs: seq<Conj> := [];
    var i := 1;
    while i < |ncsv|
      invariant 1 <= i <= |ncsv| && rcs == Accumulated(ncsv, i - 1) && cs == Current(ncsv, i - 1)
    {
      rcs := Multiply(cs, ncsv[i], rcs);
      cs := rcs;
      i := i + 1;
    }
    r := Simplify(ToDisj(cs));
  }

  // ---- what the products are

  /** No sequence occurs twice, and no conjunction is empty. */
  ghost predicate Apart(gs: Listing) {
    && (forall i :: 0 <= i < |gs| ==> gs[i] != [] && OneEach(gs[i]))
    && (forall i, j, a, b :: 0 <= i < j < |gs| && 0 <= a < |gs[i]| && 0 <= b < |gs[j]| ==>
        gs[i][a].body != gs[j][b].body)
  }

  /** A sequence that occurs more than once has one sign throughout, and no conjunction is empty. */
  ghost predicate Uniform(gs: Listing) {
    && (forall i :: 0 <= i < |gs| ==> gs[i] != [] && OneEach(gs[i]))
    && (forall i, j, a, b ::
          0 <= i < |gs| && 0 <= j < |gs| && 0 <= a < |gs[i]| && 0 <= b < |gs[j]| && gs[i][a].body == gs[j][b].body ==>
            gs[i][a].neg == gs[j][b].neg)
  }

  lemma ApartIsUniform(gs: Listing)
    requires Apart(gs)
    ensures Uniform(gs)
  {
    forall i: nat, j: nat, a: nat, b: nat | i < |gs| && j < |gs| && a < |gs[i]| && b < |gs[j]|
                        && gs[i][a].body == gs[j][b].body
      ensures gs[i][a].neg == gs[j][b].neg
    {
      assert i == j && a == b;
    }
  }

  ghost predicate Picks(gs: Listing, picks: seq<nat>) {
    |picks| <= |gs| && forall i :: 0 <= i < |picks| ==> picks[i] < |gs[i]|
  }

  /** One sequence from each of the first groups. */
  function Choice(gs: Listing, picks: seq<nat>): Conj
    requires Picks(gs, picks)
  {
    if picks == [] then map[]
    else
      var n := |picks| - 1;
      assert Picks(gs, picks[..n]);
      Insert(Choice(gs, picks[..n]), gs[n][picks[n]])
  }

  lemma {:induction false} ChoiceHas(gs: Listing, picks: seq<nat>, b: Body)
    requires Uniform(gs) && Picks(gs, picks)
    ensures b in Choice(gs, picks) <==> exists i :: 0 <= i < |picks| && gs[i][picks[i]].body == b
    ensures forall i :: 0 <= i < |picks| ==> gs[i][picks[i]].body in Choice(gs, picks)
                                             && Choice(gs, picks)[gs[i][picks[i]].body] == gs[i][picks[i]].neg
    decreases |picks|
  {
    if picks != [] {
      var n := |picks| - 1;
      var shorter := picks[..n];
      assert forall i :: 0 <= i < n ==> picks[i] == shorter[i];
      ChoiceHas(gs, shorter, b);
      ChoiceHas(gs, shorter, gs[n][picks[n]].body);
      if k :| 0 <= k < n && gs[k][picks[k]].body == gs[n][picks[n]].body {
        OneSign(gs, k, picks[k], n, picks[n]);
      }
    }
  }

  ghost predicate Part(c: Conj, f: Conj) {
    c.Keys <= f.Keys && forall b :: b in c ==> c[b] == f[b]
  }

  lemma {:induction false} ProductsHave(cs: seq<Conj>, g: seq<Lits>, c: Conj)
    ensures c in Products(cs, g) <==> exists k, j :: 0 <= k < |cs| && 0 <= j < |g| && c == Insert(cs[k], g[j])
  {
    if g != [] {
      var n := |g| - 1;
      ProductsHave(cs, g[..n], c);
      var e := InsertEach(cs, g[n]);
      if k, j :| 0 <= k < |cs| && 0 <= j < |g| && c == Insert(cs[k], g[j]) {
        if j < n {
          assert c == Insert(cs[k], g[..n][j]);
        } else {
          assert e[k] == c;
        }
      }
    }
  }

  /** A product that is part of a choice from the first `n` groups. */
  ghost predicate PartOfChoice(gs: Listing, n: nat, c: Conj) {
    c != map[] && exists picks: seq<nat> :: Picks(gs, picks) && |picks| == n && Part(c, Choice(gs, picks))
  }

  ghost predicate HasChoices(gs: Listing, n: nat, cs: seq<Conj>) {
    forall picks: seq<nat> :: Picks(gs, picks) && |picks| == n ==> Choice(gs, picks) in cs
  }

  ghost predicate AreParts(gs: Listing, n: nat, cs: seq<Conj>) {
    forall c :: c in cs ==> PartOfChoice(gs, n, c)
  }

  /** Every product, stale ones included, is part of a choice from all groups so far, and every such choice is there. */
  lemma {:induction false} ProductsAreParts(gs: Listing, i: nat)
    requires Uniform(gs) && i < |gs|
    ensures AreParts(gs, i + 1, Current(gs, i)) && HasChoices(gs, i + 1, Current(gs, i))
    decreases i
  {
    hide PartOfChoice, Uniform, Picks, Choice, Current;
    if i == 0 {
      FirstProducts(gs);
    } else {
      ProductsAreParts(gs, i - 1);
      forall c | c in Current(gs, i) ensures PartOfChoice(gs, i + 1, c) {
        PartGrows(gs, i, c);
      }
      forall picks: seq<nat> | Picks(gs, picks) && |picks| == i + 1 ensures Choice(gs, picks) in Current(gs, i) {
        ChoiceGrows(gs, i, picks);
      }
    }
  }

  lemma FirstProducts(gs: Listing)
    requires Uniform(gs) && gs != []
    ensures AreParts(gs, 1, Current(gs, 0)) && HasChoices(gs, 1, Current(gs, 0))
  {
    var s := Singles(gs[0]);
    forall c | c in s ensures PartOfChoice(gs, 1, c) {
      var k :| 0 <= k < |s| && s[k] == c;
      OneChoice(gs, [k]);
      assert Part(c, Choice(gs, [k]));
      assert gs[0][k].body in c;
    }
    forall picks: seq<nat> | Picks(gs, picks) && |picks| == 1 ensures Choice(gs, picks) in s {
      OneChoice(gs, picks);
      assert s[picks[0]] == Choice(gs, picks);
    }
  }

  lemma OneChoice(gs: Listing, picks: seq<nat>)
    requires Picks(gs, picks) && |picks| == 1
    ensures Choice(gs, picks) == One(gs[0][picks[0]])
  {
    assert picks[..0] == [];
  }

  /** A stale product, or one made from a product of the round before. */
  lemma Origin(gs: Listing, i: nat, c: Conj) returns (d: Conj, j: nat)
    requires Uniform(gs) && 0 < i < |gs| && c in Current(gs, i)
    ensures d in Current(gs, i - 1) && j < |gs[i]| && (c == d || c == Insert(d, gs[i][j]))
  {
    hide Products;
    var cs := Current(gs, i - 1);
    if c in Accumulated(gs, i - 1) {
      d, j := c, 0;
      assert i > 1;
    } else {
      assert c in Products(cs, gs[i]);
      ProductsHave(cs, gs[i], c);
      var k, m :| 0 <= k < |cs| && 0 <= m < |gs[i]| && c == Insert(cs[k], gs[i][m]);
      d, j := cs[k], m;
    }
  }

  lemma PartGrows(gs: Listing, i: nat, c: Conj)
    requires Uniform(gs) && 0 < i < |gs| && c in Current(gs, i) && AreParts(gs, i, Current(gs, i - 1))
    ensures PartOfChoice(gs, i + 1, c)
  {
    hide Uniform, Current;
    var d, j := Origin(gs, i, c);
    assert PartOfChoice(gs, i, d);
    var picks: seq<nat> :| Picks(gs, picks) && |picks| == i && Part(d, Choice(gs, picks));
    PartExtends(gs, i, picks, j, d, c);
  }

  lemma PartInserted(d: Conj, c: Conj, f: Conj, l: Lits)
    requires d != map[] && Part(d, f) && (l.body in f ==> f[l.body] == l.neg) && (c == d || c == Insert(d, l))
    ensures Part(c, Insert(f, l)) && c != map[]
  {
    var b :| b in d;
    assert b in c;
  }

  lemma PartExtends(gs: Listing, i: nat, picks: seq<nat>, j: nat, d: Conj, c: Conj)
    requires Uniform(gs) && i < |gs| && Picks(gs, picks) && |picks| == i && d != map[] && Part(d, Choice(gs, picks))
    requires j < |gs[i]| && (c == d || c == Insert(d, gs[i][j]))
    ensures PartOfChoice(gs, i + 1, c)
  {
    var more := picks + [j];
    assert more[..i] == picks;
    SameSign(gs, i, picks, j);
    hide Uniform, Part, Insert;
    PartInserted(d, c, Choice(gs, picks), gs[i][j]);
    assert Picks(gs, more) && Choice(gs, more) == Insert(Choice(gs, picks), gs[i][j]);
  }

  /** A sequence that a choice has already has the sign it has here. */
  lemma SameSign(gs: Listing, i: nat, picks: seq<nat>, j: nat)
    requires Uniform(gs) && i < |gs| && Picks(gs, picks) && |picks| == i && j < |gs[i]|
    ensures gs[i][j].body in Choice(gs, picks) ==> Choice(gs, picks)[gs[i][j].body] == gs[i][j].neg
  {
    hide Choice;
    var b := gs[i][j].body;
    ChoiceHas(gs, picks, b);
    if b in Choice(gs, picks) {
      var k :| 0 <= k < |picks| && gs[k][picks[k]].body == b;
      assert gs[k][picks[k]].neg == gs[i][j].neg;
    }
  }

  lemma ChoiceGrows(gs: Listing, i: nat, picks: seq<nat>)
    requires 0 < i < |gs| && Picks(gs, picks) && |picks| == i + 1 && HasChoices(gs, i, Current(gs, i - 1))
    ensures Choice(gs, picks) in Current(gs, i)
  {
    hide Products;
    var ps := picks[..i];
    assert Picks(gs, ps);
    var cs := Current(gs, i - 1);
    assert Choice(gs, ps) in cs;
    var k :| 0 <= k < |cs| && cs[k] == Choice(gs, ps);
    ProductsHave(cs, gs[i], Choice(gs, picks));
  }

  lemma {:induction false} ToDisjHas(cs: seq<Conj>)
    ensures forall c :: c in ToDisj(cs) ==> c in cs
    ensures forall c :: c in cs ==> HasKeys(ToDisj(cs), c.Keys)
  {
    if cs != [] {
      var n := |cs| - 1;
      ToDisjHas(cs[..n]);
      assert cs == cs[..n] + [cs[n]];
      forall c | c in cs ensures HasKeys(ToDisj(cs), c.Keys) {
        if c in cs[..n] {
          var d :| d in ToDisj(cs[..n]) && d.Keys == c.Keys;
          assert d in ToDisj(cs);
        } else if !HasKeys(ToDisj(cs[..n]), c.Keys) {
          assert c in ToDisj(cs);
        }
      }
    }
  }

  /** One choice from all conjunctions is properly inside another: simplification drops it. */
  ghost predicate Nested(gs: Listing) {
    exists p: seq<nat>, q: seq<nat> :: Picks(gs, p) && Picks(gs, q) && |p| == |q| == |gs|
                                       && Choice(gs, p).Keys < Choice(gs, q).Keys
  }

  /** When no sequence occurs twice, a choice is told by its keys, and no choice extends another. */
  lemma ChoicesApart(gs: Listing, p: seq<nat>, q: seq<nat>)
    requires Apart(gs) && Picks(gs, p) && Picks(gs, q) && |p| == |q| && Choice(gs, p).Keys <= Choice(gs, q).Keys
    ensures p == q
  {
    hide Choice, Apart, Uniform;
    ApartIsUniform(gs);
    forall i | 0 <= i < |p| ensures p[i] == q[i] {
      var b := gs[i][p[i]].body;
      ChoiceHas(gs, p, b);
      ChoiceHas(gs, q, b);
      var j :| 0 <= j < |q| && gs[j][q[j]].body == b;
      SamePlace(gs, i, p[i], j, q[j]);
    }
  }

  lemma SamePlace(gs: Listing, i: nat, a: nat, j: nat, b: nat)
    requires Apart(gs) && i < |gs| && j < |gs| && a < |gs[i]| && b < |gs[j]| && gs[i][a].body == gs[j][b].body
    ensures i == j && a == b
  {
  }

  lemma ApartIsFlat(gs: Listing)
    requires Apart(gs)
    ensures !Nested(gs)
  {
    hide Apart, Choice;
    if Nested(gs) {
      var p: seq<nat>, q: seq<nat> :| Picks(gs, p) && Picks(gs, q) && |p| == |q| == |gs|
                                      && Choice(gs, p).Keys < Choice(gs, q).Keys;
      ChoicesApart(gs, p, q);
    }
  }

  /** Where signs agree, a choice is told by its keys. */
  lemma {:induction false} KeysTell(gs: Listing, p: seq<nat>, q: seq<nat>)
    requires Uniform(gs) && Picks(gs, p) && Picks(gs, q) && Choice(gs, p).Keys == Choice(gs, q).Keys
    ensures Choice(gs, p) == Choice(gs, q)
  {
    hide Choice, Uniform;
    forall b | b in Choice(gs, p) ensures Choice(gs, p)[b] == Choice(gs, q)[b] {
      ChoiceHas(gs, p, b);
      ChoiceHas(gs, q, b);
      var i :| 0 <= i < |p| && gs[i][p[i]].body == b;
      var j :| 0 <= j < |q| && gs[j][q[j]].body == b;
      OneSign(gs, i, p[i], j, q[j]);
    }
  }

  lemma OneSign(gs: Listing, i: nat, a: nat, j: nat, b: nat)
    requires Uniform(gs) && i < |gs| && j < |gs| && a < |gs[i]| && b < |gs[j]| && gs[i][a].body == gs[j][b].body
    ensures gs[i][a].neg == gs[j][b].neg
  {
  }

  ghost predicate IsChoice(gs: Listing, c: Conj) {
    exists picks: seq<nat> :: Picks(gs, picks) && |picks| == |gs| && c == Choice(gs, picks)
  }

  /** What simplification works on: parts of choices, and every choice, at least by its keys. */
  ghost predicate Sifted(gs: Listing, d: Disj) {
    && (forall c :: c in d ==> PartOfChoice(gs, |gs|, c))
    && (forall picks: seq<nat> :: Picks(gs, picks) && |picks| == |gs| ==> HasKeys(d, Choice(gs, picks).Keys))
  }

  lemma ProductsSifted(gs: Listing)
    requires Uniform(gs) && gs != []
    ensures Sifted(gs, ToDisj(Current(gs, |gs| - 1)))
  {
    hide Uniform, Picks, PartOfChoice, Current, ToDisj, HasKeys, Choice;
    var cs := Current(gs, |gs| - 1);
    ProductsAreParts(gs, |gs| - 1);
    ToDisjHas(cs);
  }

  lemma PartWitness(gs: Listing, c: Conj) returns (picks: seq<nat>)
    requires PartOfChoice(gs, |gs|, c)
    ensures Picks(gs, picks) && |picks| == |gs| && Part(c, Choice(gs, picks)) && c != map[]
  {
    picks :| Picks(gs, picks) && |picks| == |gs| && Part(c, Choice(gs, picks));
  }

  lemma CombinedIs(gs: Listing)
    requires gs != []
    ensures var d := ToDisj(Current(gs, |gs| - 1)); Combined(gs) == if |gs| == 1 then d else Simplified(d)
  {
  }

  /** What is kept is a whole choice: its part of a choice cannot be proper. */
  lemma KeptIsChoice(gs: Listing, d: Disj, c: Conj) returns (picks: seq<nat>)
    requires Uniform(gs) && gs != [] && Sifted(gs, d) && c in d && (|gs| == 1 || Maximal(d, c))
    ensures Picks(gs, picks) && |picks| == |gs| && c == Choice(gs, picks)
  {
    hide Uniform, Choice, PartOfChoice;
    picks := PartWitness(gs, c);
    if |gs| == 1 {
      OneIsWhole(gs, c, picks);
    } else {
      var e :| e in d && e.Keys == Choice(gs, picks).Keys;
      assert c.Keys == e.Keys by {
        var b :| b in c;
        assert b in e;
      }
    }
  }

  /** A choice that is in no other one is kept. */
  lemma ChoiceIsKept(gs: Listing, d: Disj, picks: seq<nat>)
    requires Uniform(gs) && gs != [] && Sifted(gs, d) && Picks(gs, picks) && |picks| == |gs| && !Nested(gs)
    ensures Choice(gs, picks) in d && Maximal(d, Choice(gs, picks))
  {
    hide Uniform, Choice, PartOfChoice, Picks, Part;
    var f := Choice(gs, picks);
    forall e | e in d && f.Keys <= e.Keys ensures e == f {
      var q := PartWitness(gs, e);
      PartKeys(e, Choice(gs, q));
      NotNested(gs, picks, q);
      KeysTell(gs, picks, q);
      PartWhole(e, Choice(gs, q));
    }
    var e :| e in d && e.Keys == f.Keys;
    assert PartOfChoice(gs, |gs|, e);
    var q := PartWitness(gs, e);
  }

  lemma PartKeys(c: Conj, f: Conj)
    requires Part(c, f)
    ensures c.Keys <= f.Keys
  {
  }

  lemma PartWhole(c: Conj, f: Conj)
    requires Part(c, f) && f.Keys <= c.Keys
    ensures c == f
  {
  }

  lemma NotNested(gs: Listing, p: seq<nat>, q: seq<nat>)
    requires !Nested(gs) && Picks(gs, p) && Picks(gs, q) && |p| == |q| == |gs|
    requires Choice(gs, p).Keys <= Choice(gs, q).Keys
    ensures Choice(gs, p).Keys == Choice(gs, q).Keys
  {
    hide Choice, Picks;
  }

  lemma OneIsWhole(gs: Listing, c: Conj, picks: seq<nat>)
    requires |gs| == 1 && Picks(gs, picks) && |picks| == 1 && c != map[] && Part(c, Choice(gs, picks))
    ensures c == Choice(gs, picks)
  {
    OneChoice(gs, picks);
    var b :| b in c;
    assert b == gs[0][picks[0]].body;
  }

  /** When no choice is inside another, simplification removes exactly the stale products: what is left are the choices
      of one sequence from every conjunction. */
  lemma StaleProductsGo(gs: Listing)
    requires Uniform(gs) && gs != [] && !Nested(gs)
    ensures forall c :: c in Combined(gs) <==> IsChoice(gs, c)
  {
    hide Uniform, Picks, Nested, Current, ToDisj, Choice, Maximal, Sifted;
    var d := ToDisj(Current(gs, |gs| - 1));
    ProductsSifted(gs);
    CombinedIs(gs);
    forall c ensures c in Combined(gs) <==> IsChoice(gs, c) {
      if c in Combined(gs) {
        var picks := KeptIsChoice(gs, d, c);
      }
      if IsChoice(gs, c) {
        var picks: seq<nat> :| Picks(gs, picks) && |picks| == |gs| && c == Choice(gs, picks);
        ChoiceIsKept(gs, d, picks);
      }
    }
  }

  // ---- meaning

  /** A conjunction holds of a way to say which sequences match. */
  ghost predicate ConjHolds(c: Conj, v: Body -> bool) {
    forall b :: b in c ==> v(b) != c[b]
  }

  ghost predicate DisjHolds(d: Disj, v: Body -> bool) {
    exists c :: c in d && ConjHolds(c, v)
  }

  ghost predicate GroupHolds(g: seq<Lits>, v: Body -> bool) {
    forall i :: 0 <= i < |g| ==> v(g[i].body) != g[i].neg
  }

  /** The listed disjunction: some conjunction has all its sequences as it wants them. */
  ghost predicate ListingHolds(gs: Listing, v: Body -> bool) {
    exists i :: 0 <= i < |gs| && GroupHolds(gs[i], v)
  }

  lemma {:induction false} ChoiceHolding(gs: Listing, v: Body -> bool, n: nat) returns (picks: seq<nat>)
    requires n <= |gs| && !ListingHolds(gs, v)
    ensures |picks| == n && Picks(FlipEach(gs), picks)
    ensures forall i :: 0 <= i < n ==> v(gs[i][picks[i]].body) == gs[i][picks[i]].neg
  {
    if n == 0 {
      picks := [];
    } else {
      picks := ChoiceHolding(gs, v, n - 1);
      assert !GroupHolds(gs[n - 1], v);
      var k: nat :| k < |gs[n - 1]| && v(gs[n - 1][k].body) == gs[n - 1][k].neg;
      picks := picks + [k];
    }
  }

  /** A choice of flipped sequences holds exactly when in every conjunction the chosen sequence fails. */
  lemma ChoiceHolds(gs: Listing, picks: seq<nat>, v: Body -> bool)
    requires Uniform(FlipEach(gs)) && Picks(FlipEach(gs), picks)
    ensures ConjHolds(Choice(FlipEach(gs), picks), v) <==>
            forall i :: 0 <= i < |picks| ==> v(gs[i][picks[i]].body) == gs[i][picks[i]].neg
  {
    hide Uniform, Choice;
    var fs := FlipEach(gs);
    var c := Choice(fs, picks);
    if forall i :: 0 <= i < |picks| ==> v(gs[i][picks[i]].body) == gs[i][picks[i]].neg {
      forall b | b in c ensures v(b) != c[b] {
        ChoiceHas(fs, picks, b);
        var i :| 0 <= i < |picks| && fs[i][picks[i]].body == b;
        assert fs[i][picks[i]] == Flip(gs[i][picks[i]]);
      }
    }
    if ConjHolds(c, v) {
      forall i | 0 <= i < |picks| ensures v(gs[i][picks[i]].body) == gs[i][picks[i]].neg {
        ChoiceHas(fs, picks, fs[i][picks[i]].body);
        assert fs[i][picks[i]] == Flip(gs[i][picks[i]]);
      }
    }
  }

  lemma NoneHolds(gs: Listing, picks: seq<nat>, v: Body -> bool)
    requires Picks(gs, picks) && |picks| == |gs|
    requires forall i :: 0 <= i < |picks| ==> v(gs[i][picks[i]].body) == gs[i][picks[i]].neg
    ensures !ListingHolds(gs, v)
  {
  }

  lemma FlippedUniform(gs: Listing)
    requires Uniform(gs)
    ensures Uniform(FlipEach(gs))
  {
    var fs: Listing := FlipEach(gs);
    forall i: nat, j: nat, a: nat, b: nat | i < |fs| && j < |fs| && a < |fs[i]| && b < |fs[j]|
                        && fs[i][a].body == fs[j][b].body
      ensures fs[i][a].neg == fs[j][b].neg
    {
      assert gs[i][a].body == gs[j][b].body;
    }
  }

  lemma {:induction false} FlippedKeys(gs: Listing, picks: seq<nat>)
    requires Picks(gs, picks)
    ensures Picks(FlipEach(gs), picks) && Choice(FlipEach(gs), picks).Keys == Choice(gs, picks).Keys
    decreases |picks|
  {
    if picks != [] {
      var n := |picks| - 1;
      FlippedKeys(gs, picks[..n]);
      assert FlipEach(gs)[n][picks[n]] == Flip(gs[n][picks[n]]);
    }
  }

  lemma FlippedPicks(gs: Listing, picks: seq<nat>)
    ensures Picks(gs, picks) <==> Picks(FlipEach(gs), picks)
  {
  }

  lemma FlippedNested(gs: Listing)
    ensures Nested(FlipEach(gs)) <==> Nested(gs)
  {
    hide Choice, Picks;
    forall p: seq<nat> ensures Picks(gs, p) <==> Picks(FlipEach(gs), p) {
      FlippedPicks(gs, p);
    }
    forall p: seq<nat> | Picks(gs, p) ensures Choice(FlipEach(gs), p).Keys == Choice(gs, p).Keys {
      FlippedKeys(gs, p);
    }
  }

  /** The negation means the opposite of the disjunction. */
  ghost predicate Negates(gs: Listing, v: Body -> bool) {
    DisjHolds(Combined(FlipEach(gs)), v) <==> !ListingHolds(gs, v)
  }

  /** It does when no choice is inside another. */
  lemma FlatNegates(gs: Listing, v: Body -> bool)
    requires Uniform(gs) && gs != [] && !Nested(gs)
    ensures Negates(gs, v)
  {
    hide Uniform, Nested, Picks, Choice, Combined, ConjHolds, ListingHolds, GroupHolds;
    var fs := FlipEach(gs);
    FlippedUniform(gs);
    FlippedNested(gs);
    StaleProductsGo(fs);
    if !ListingHolds(gs, v) {
      var picks := ChoiceHolding(gs, v, |gs|);
      ChoiceHolds(gs, picks, v);
      assert IsChoice(fs, Choice(fs, picks));
    }
    if DisjHolds(Combined(fs), v) {
      var c :| c in Combined(fs) && ConjHolds(c, v);
      assert IsChoice(fs, c);
      var picks: seq<nat> :| Picks(fs, picks) && |picks| == |fs| && c == Choice(fs, picks);
      FlippedPicks(gs, picks);
      ChoiceHolds(gs, picks, v);
      NoneHolds(gs, picks, v);
    }
  }

  /** The sign a sequence has in the listing. */
  ghost function SignOf(gs: Listing, b: Body): bool {
    if i, a :| 0 <= i < |gs| && 0 <= a < |gs[i]| && gs[i][a].body == b then gs[i][a].neg else true
  }

  /** All of `f` holds, and no other sequence is as the listing has it. */
  ghost function Only(gs: Listing, f: Conj): Body -> bool {
    (b: Body) => if b in f then !f[b] else SignOf(gs, b)
  }

  lemma OnlyInside(gs: Listing, f: Conj, picks: seq<nat>)
    requires Uniform(gs) && Picks(gs, picks) && ConjHolds(Choice(gs, picks), Only(gs, f))
    ensures Choice(gs, picks).Keys <= f.Keys
  {
    hide Choice, Uniform;
    var c := Choice(gs, picks);
    forall b | b in c ensures b in f {
      ChoiceHas(gs, picks, b);
      var i :| 0 <= i < |picks| && gs[i][picks[i]].body == b;
      SignIs(gs, i, picks[i]);
    }
  }

  lemma SignIs(gs: Listing, i: nat, a: nat)
    requires Uniform(gs) && i < |gs| && a < |gs[i]|
    ensures SignOf(gs, gs[i][a].body) == gs[i][a].neg
  {
  }

  /** One choice inside another takes at least two conjunctions. */
  lemma NotAlone(gs: Listing, p: seq<nat>, q: seq<nat>)
    requires Picks(gs, p) && Picks(gs, q) && |p| == |q| == |gs| && Choice(gs, p).Keys < Choice(gs, q).Keys
    ensures |gs| > 1
  {
    if |gs| == 1 {
      OneChoice(gs, p);
      OneChoice(gs, q);
    }
  }

  lemma NotKept(d: Disj, c: Conj, f: set<Body>, longer: set<Body>)
    requires HasKeys(d, longer) && c.Keys <= f < longer
    ensures !Maximal(d, c)
  {
    var e :| e in d && e.Keys == longer;
    var b :| b in longer && b !in f;
    assert b in e && b !in c;
  }

  /** A choice inside another shows where the negation goes wrong: neither it nor the disjunction holds. */
  lemma NestedFails(gs: Listing, p: seq<nat>, q: seq<nat>) returns (v: Body -> bool)
    requires Uniform(gs) && Picks(gs, p) && Picks(gs, q) && |p| == |q| == |gs|
    requires Choice(gs, p).Keys < Choice(gs, q).Keys
    ensures !DisjHolds(Combined(FlipEach(gs)), v) && !ListingHolds(gs, v)
  {
    hide Uniform, Choice, ListingHolds, Combined, ToDisj, Current, Maximal, SignOf, PartOfChoice;
    var fs := FlipEach(gs);
    FlippedUniform(gs);
    FlippedKeys(gs, p);
    FlippedKeys(gs, q);
    NotAlone(gs, p, q);
    var f := Choice(fs, p);
    v := Only(fs, f);
    ChoiceHolds(gs, p, v);
    NoneHolds(gs, p, v);
    var d := ToDisj(Current(fs, |fs| - 1));
    ProductsSifted(fs);
    CombinedIs(fs);
    forall c | c in Combined(fs) ensures !ConjHolds(c, v) {
      var picks := KeptIsChoice(fs, d, c);
      if ConjHolds(c, v) {
        OnlyInside(fs, f, picks);
        NotKept(d, c, f.Keys, Choice(fs, q).Keys);
      }
    }
  }

  /** Where every sequence has one sign, the negation means the opposite exactly when there is something to negate and
      no choice of one sequence from every conjunction is properly inside another. */
  lemma NegationExactly(gs: Listing)
    requires Uniform(gs)
    ensures (forall v :: Negates(gs, v)) <==> gs != [] && !Nested(gs)
  {
    hide Uniform, Nested, Choice, Combined, DisjHolds, ListingHolds, Negates;
    if gs == [] {
      NothingToNegate(_ => true);
    } else if Nested(gs) {
      NestedIsWrong(gs);
    } else {
      forall v ensures Negates(gs, v) {
        FlatNegates(gs, v);
      }
    }
  }

  lemma NothingToNegate(v: Body -> bool)
    ensures !Negates([], v)
  {
    assert FlipEach([]) == [];
  }

  lemma NestedIsWrong(gs: Listing)
    requires Uniform(gs) && Nested(gs)
    ensures exists v :: !Negates(gs, v)
  {
    hide Uniform, Choice, Combined, DisjHolds, ListingHolds, Picks;
    var p: seq<nat>, q: seq<nat> :| Picks(gs, p) && Picks(gs, q) && |p| == |q| == |gs|
                                    && Choice(gs, p).Keys < Choice(gs, q).Keys;
    var v := NestedFails(gs, p, q);
    assert !Negates(gs, v);
  }

  /** In particular when no sequence occurs twice. */
  lemma NegationMeansNot(gs: Listing, v: Body -> bool)
    requires Apart(gs) && gs != []
    ensures DisjHolds(Combined(FlipEach(gs)), v) <==> !ListingHolds(gs, v)
  {
    hide Apart, Uniform, Nested, Choice, Combined, ConjHolds, ListingHolds, GroupHolds;
    ApartIsUniform(gs);
    ApartIsFlat(gs);
    FlatNegates(gs, v);
  }

  // ---- sequences that occur with both signs

  /** `c` has a sequence of every conjunction, as the listing has it. */
  ghost predicate MeetsAll(gs: Listing, c: Conj) {
    forall i :: 0 <= i < |gs| ==> Meets(gs[i], c)
  }

  ghost predicate Meets(g: seq<Lits>, c: Conj) {
    exists k :: 0 <= k < |g| && g[k].body in c && c[g[k].body] == g[k].neg
  }

  /** A conjunction that misses the negation of a group can hold together with the group. */
  lemma HoldsWith(g: seq<Lits>, c: Conj) returns (v: Body -> bool)
    requires OneEach(g) && !Meets(FlipAll(g), c)
    ensures ConjHolds(c, v) && GroupHolds(g, v)
  {
    v := (b: Body) => if b in c then !c[b] else !SignOf([g], b);
    forall i | 0 <= i < |g| ensures v(g[i].body) != g[i].neg {
      assert FlipAll(g)[i] == Flip(g[i]);
      if g[i].body !in c {
        assert [g][0] == g;
        LoneSign(g, i);
      }
    }
  }

  lemma LoneSign(g: seq<Lits>, i: nat)
    requires OneEach(g) && i < |g|
    ensures SignOf([g], g[i].body) == g[i].neg
  {
    assert [g][0][i].body == g[i].body;
  }

  lemma MeetsFails(g: seq<Lits>, c: Conj, v: Body -> bool)
    requires Meets(FlipAll(g), c) && ConjHolds(c, v)
    ensures !GroupHolds(g, v)
  {
    var k :| 0 <= k < |g| && FlipAll(g)[k].body in c && c[FlipAll(g)[k].body] == FlipAll(g)[k].neg;
    assert FlipAll(g)[k] == Flip(g[k]);
  }

  /** Whatever the signs: the negation never holds together with the disjunction exactly when each conjunction it keeps
      has a flipped sequence of every conjunction. */
  lemma NeverBothExactly(gs: Listing)
    requires forall i :: 0 <= i < |gs| ==> OneEach(gs[i])
    ensures (forall v :: !(DisjHolds(Combined(FlipEach(gs)), v) && ListingHolds(gs, v))) <==>
            forall c :: c in Combined(FlipEach(gs)) ==> MeetsAll(FlipEach(gs), c)
  {
    hide Combined, GroupHolds, ConjHolds, Meets;
    var fs := FlipEach(gs);
    if c, i :| c in Combined(fs) && 0 <= i < |gs| && !Meets(fs[i], c) {
      var v := HoldsWith(gs[i], c);
      assert DisjHolds(Combined(fs), v) && ListingHolds(gs, v);
    } else {
      forall v ensures !(DisjHolds(Combined(fs), v) && ListingHolds(gs, v)) {
        if c, i :| c in Combined(fs) && ConjHolds(c, v) && 0 <= i < |gs| && GroupHolds(gs[i], v) {
          assert Meets(fs[i], c);
          MeetsFails(gs[i], c, v);
        }
      }
    }
  }

  // ---- alternatives that are single sequences

  /** One conjunction a sequence, all different. */
  function Alone(ls: seq<Lits>): (gs: Listing)
    ensures |gs| == |ls| && forall i :: 0 <= i < |ls| ==> gs[i] == [ls[i]]
  {
    seq(|ls|, i requires 0 <= i < |ls| => [ls[i]])
  }

  lemma {:induction false} AllOf(ls: seq<Lits>, picks: seq<nat>)
    requires OneEach(ls) && Picks(Alone(ls), picks)
    ensures Choice(Alone(ls), picks) == ToConj(ls[..|picks|])
    decreases |picks|
  {
    if picks != [] {
      var n := |picks| - 1;
      AllOf(ls, picks[..n]);
      assert ls[..n + 1][..n] == ls[..n];
    }
  }

  lemma AloneApart(ls: seq<Lits>)
    requires OneEach(ls)
    ensures Apart(Alone(ls)) && FlipEach(Alone(ls)) == Alone(FlipAll(ls)) && OneEach(FlipAll(ls))
  {
    forall i | 0 <= i < |ls| ensures FlipEach(Alone(ls))[i] == Alone(FlipAll(ls))[i] {
      assert FlipAll([ls[i]]) == [Flip(ls[i])];
    }
  }

  function Zeros(n: nat): (z: seq<nat>)
    ensures |z| == n && forall i :: 0 <= i < n ==> z[i] == 0
  {
    seq(n, _ => 0)
  }

  /** Negating one or more single sequences gives one conjunction: all of them, flipped. */
  lemma SingleSequences(ls: seq<Lits>)
    requires OneEach(ls) && ls != []
    ensures Combined(FlipEach(Alone(ls))) == {ToConj(FlipAll(ls))}
  {
    hide Apart, Uniform, Nested, Choice, Combined, ToConj, IsChoice;
    AloneApart(ls);
    var fs := FlipAll(ls);
    AloneApart(fs);
    ApartIsUniform(Alone(fs));
    ApartIsFlat(Alone(fs));
    StaleProductsGo(Alone(fs));
    forall c ensures IsChoice(Alone(fs), c) <==> c == ToConj(fs) {
      OneChoiceOnly(fs, c);
    }
    assert IsChoice(Alone(fs), ToConj(fs));
  }

  lemma OneChoiceOnly(fs: seq<Lits>, c: Conj)
    requires OneEach(fs)
    ensures IsChoice(Alone(fs), c) <==> c == ToConj(fs)
  {
    hide Choice, ToConj;
    assert fs[..|fs|] == fs;
    if IsChoice(Alone(fs), c) {
      var picks: seq<nat> :| Picks(Alone(fs), picks) && |picks| == |fs| && c == Choice(Alone(fs), picks);
      AllOf(fs, picks);
    }
    assert Picks(Alone(fs), Zeros(|fs|));
    AllOf(fs, Zeros(|fs|));
  }

  lemma {:induction false} ToDisjAll(cs: seq<Conj>)
    requires forall i, j :: 0 <= i < j < |cs| ==> cs[i].Keys != cs[j].Keys
    ensures ToDisj(cs) == set c | c in cs
  {
    if cs != [] {
      var n := |cs| - 1;
      ToDisjAll(cs[..n]);
      ToDisjHas(cs[..n]);
      assert cs == cs[..n] + [cs[n]];
    }
  }

  /** The disjunction a listing of single sequences stands for. */
  function AsDisj(ls: seq<Lits>): Disj {
    set c | c in Singles(ls)
  }

  /** Negating twice gives the alternatives back: the one conjunction, in any order, flips into them. */
  lemma DoubleNegation(ls: seq<Lits>, again: seq<Lits>)
    requires OneEach(ls) && ls != [] && multiset(again) == multiset(FlipAll(ls))
    ensures Combined(FlipEach([again])) == AsDisj(ls)
  {
    var back := FlipAll(again);
    var s := Singles(back);
    SameElements(again, FlipAll(ls));
    forall i, j | 0 <= i < j < |s| ensures s[i].Keys != s[j].Keys {
      OnceEach(ls, again, i, j);
      assert again[i].body in s[i].Keys;
    }
    ToDisjAll(s);
    var t := Singles(ls);
    forall c ensures c in s <==> c in t {
      if c in s {
        var i :| 0 <= i < |s| && s[i] == c;
        assert again[i] in FlipAll(ls);
        var k :| 0 <= k < |ls| && FlipAll(ls)[k] == again[i];
        assert t[k] == c;
      }
      if c in t {
        var k :| 0 <= k < |t| && t[k] == c;
        assert FlipAll(ls)[k] in again;
        var i :| 0 <= i < |again| && again[i] == FlipAll(ls)[k];
        assert s[i] == c;
      }
    }
  }

  lemma SameElements(a: seq<Lits>, b: seq<Lits>)
    requires multiset(a) == multiset(b)
    ensures |a| == |b| && forall x :: x in a <==> x in b
  {
    assert |multiset(a)| == |a| && |multiset(b)| == |b|;
    forall x ensures x in a <==> x in b {
      assert x in multiset(a) <==> x in multiset(b);
    }
  }

  lemma OnceEach(ls: seq<Lits>, again: seq<Lits>, i: nat, j: nat)
    requires OneEach(ls) && multiset(again) == multiset(FlipAll(ls)) && i < j < |again|
    ensures again[i].body != again[j].body
  {
    SameElements(again, FlipAll(ls));
    if again[i].body == again[j].body {
      assert again[i] in FlipAll(ls) && again[j] in FlipAll(ls);
      var k :| 0 <= k < |ls| && FlipAll(ls)[k] == again[i];
      var m :| 0 <= m < |ls| && FlipAll(ls)[m] == again[j];
      assert k == m;
      Twice(again, i, j);
      OnlyOnce(FlipAll(ls), k);
    }
  }

  lemma Twice(s: seq<Lits>, i: nat, j: nat)
    requires i < j < |s| && s[i] == s[j]
    ensures multiset(s)[s[i]] >= 2
  {
    assert s == s[..i] + [s[i]] + s[i + 1..j] + [s[j]] + s[j + 1..];
  }

  lemma OnlyOnce(s: seq<Lits>, k: nat)
    requires OneEach(s) && k < |s|
    ensures multiset(s)[s[k]] == 1
  {
    assert s == s[..k] + [s[k]] + s[k + 1..];
    assert s[k] !in s[..k] && s[k] !in s[k + 1..];
  }

  /** One sequence in two conjunctions that spoils the negation: the choice of it from both is inside another choice,
      and simplification prefers the longer product. */
  lemma SharedSequenceFails(a: Body, b: Body, c: Body)
    requires a != b && b != c && a != c
    ensures var gs := [[Lits(a, false), Lits(b, false)], [Lits(a, false), Lits(c, false)]];
            var v := (x: Body) => x != a;
            Uniform(gs) && Nested(gs) && !DisjHolds(Combined(FlipEach(gs)), v) && !ListingHolds(gs, v)
  {
    hide Accumulated, ToDisj, Uniform, Nested, Choice;
    SharedIsNested(a, b, c);
    var gs := [[Lits(a, false), Lits(b, false)], [Lits(a, false), Lits(c, false)]];
    var v: Body -> bool := x => x != a;
    var ps := Accumulated(FlipEach(gs), 1);
    SharedProducts(a, b, c);
    ToDisjHas(ps);
    assert v(gs[0][0].body) == gs[0][0].neg && v(gs[1][0].body) == gs[1][0].neg;
    NoneHolds(gs, [0, 0], v);
    var shorter: Conj, longer: Conj := map[a := true], map[b := true, a := true];
    assert longer in ps && b in longer.Keys && b !in shorter.Keys && shorter.Keys <= longer.Keys;
    Shadowed(ToDisj(ps), shorter, longer);
    forall e | e in Combined(FlipEach(gs)) ensures !ConjHolds(e, v) {
      assert e in ps && e != shorter;
      assert (b in e && e[b]) || (c in e && e[c]);
    }
  }

  lemma SharedIsNested(a: Body, b: Body, c: Body)
    requires a != b && b != c && a != c
    ensures var gs := [[Lits(a, false), Lits(b, false)], [Lits(a, false), Lits(c, false)]]; Uniform(gs) && Nested(gs)
  {
    var gs := [[Lits(a, false), Lits(b, false)], [Lits(a, false), Lits(c, false)]];
    var p: seq<nat>, q: seq<nat> := [0, 0], [1, 0];
    assert Picks(gs, p) && Picks(gs, q) && p[..1] == [0] && q[..1] == [1];
    OneChoice(gs, [0]);
    OneChoice(gs, [1]);
    assert Choice(gs, p).Keys == {a} && Choice(gs, q).Keys == {a, b};
    assert b in Choice(gs, q).Keys && b !in Choice(gs, p).Keys;
  }

  lemma Shadowed(d: Disj, e: Conj, longer: Conj)
    requires HasKeys(d, longer.Keys) && e.Keys < longer.Keys
    ensures !Maximal(d, e)
  {
    var f :| f in d && f.Keys == longer.Keys;
    var b :| b in longer.Keys && b !in e.Keys;
    assert b in f;
  }

  /** The products with a group of two sequences. */
  lemma WithTwo(cs: seq<Conj>, l: Lits, m: Lits)
    ensures Products(cs, [l, m]) == InsertEach(cs, l) + InsertEach(cs, m)
  {
    assert [l, m][..1] == [l] && [l][..0] == [];
    assert Products(cs, []) == [] && Products(cs, [l]) == InsertEach(cs, l);
  }

  lemma SharedProducts(a: Body, b: Body, c: Body)
    requires a != b && b != c && a != c
    ensures Accumulated(FlipEach([[Lits(a, false), Lits(b, false)], [Lits(a, false), Lits(c, false)]]), 1)
         == [map[a := true], map[b := true, a := true], map[a := true, c := true], map[b := true, c := true]]
  {
    var fs := FlipEach([[Lits(a, false), Lits(b, false)], [Lits(a, false), Lits(c, false)]]);
    var cs := Singles(fs[0]);
    assert cs == [map[a := true], map[b := true]];
    assert fs[1] == [Lits(a, true), Lits(c, true)];
    WithTwo(cs, Lits(a, true), Lits(c, true));
  }

  lemma MixedProducts(a: Body, b: Body, c: Body)
    requires a != b && b != c && a != c
    ensures Accumulated(FlipEach([[Lits(a, false), Lits(b, false)], [Lits(a, true), Lits(c, false)]]), 1)
         == [map[a := true], map[b := true, a := false], map[a := true, c := true], map[b := true, c := true]]
  {
    var fs := FlipEach([[Lits(a, false), Lits(b, false)], [Lits(a, true), Lits(c, false)]]);
    var cs := Singles(fs[0]);
    assert cs == [map[a := true], map[b := true]];
    assert fs[1] == [Lits(a, false), Lits(c, true)];
    WithTwo(cs, Lits(a, false), Lits(c, true));
  }

  /** A product whose keys are inside no other's is kept. */
  lemma KeptByKeys(cs: seq<Conj>, i: nat)
    requires i < |cs| && cs[i] != map[] && forall j :: 0 <= j < |cs| && j != i ==> !(cs[i].Keys <= cs[j].Keys)
    ensures Maximal(ToDisj(cs), cs[i])
  {
    hide ToDisj;
    ToDisjHas(cs);
    var d := ToDisj(cs);
    var e :| e in d && e.Keys == cs[i].Keys;
    forall c | c in d && cs[i].Keys <= c.Keys ensures c == cs[i] {
      var j :| 0 <= j < |cs| && cs[j] == c;
    }
  }

  lemma MixedKeys(a: Body, b: Body, c: Body, ps: seq<Conj>, i: nat)
    requires a != b && b != c && a != c && 1 <= i < 4
    requires ps == [map[a := true], map[b := true, a := false], map[a := true, c := true], map[b := true, c := true]]
    ensures ps[i] != map[] && forall j :: 0 <= j < |ps| && j != i ==> !(ps[i].Keys <= ps[j].Keys)
  {
    var x, y := if i == 3 then b else a, if i == 1 then b else c;
    assert x in ps[i].Keys && y in ps[i].Keys;
    forall j | 0 <= j < |ps| && j != i ensures !(ps[i].Keys <= ps[j].Keys) {
      assert x !in ps[j].Keys || y !in ps[j].Keys;
    }
  }

  lemma MixedKept(a: Body, b: Body, c: Body)
    requires a != b && b != c && a != c
    ensures Combined(FlipEach([[Lits(a, false), Lits(b, false)], [Lits(a, true), Lits(c, false)]]))
         == {map[b := true, a := false], map[a := true, c := true], map[b := true, c := true]}
  {
    hide Accumulated, ToDisj, Maximal, Combined, HasKeys;
    var fs := FlipEach([[Lits(a, false), Lits(b, false)], [Lits(a, true), Lits(c, false)]]);
    var ps := Accumulated(fs, 1);
    MixedProducts(a, b, c);
    ToDisjHas(ps);
    assert c in ps[2].Keys && ps[0].Keys == {a} && a in ps[2].Keys;
    Shadowed(ToDisj(ps), ps[0], ps[2]);
    forall i | 1 <= i < 4 ensures Maximal(ToDisj(ps), ps[i]) {
      MixedKeys(a, b, c, ps, i);
      KeptByKeys(ps, i);
    }
    OfTwo(fs);
    assert forall k :: k in ps <==> k == ps[0] || k == ps[1] || k == ps[2] || k == ps[3];
  }

  /** What is kept of two conjunctions. */
  lemma OfTwo(gs: Listing)
    requires |gs| == 2
    ensures var ps := Accumulated(gs, 1); forall c :: c in Combined(gs) <==> c in ps && Maximal(ToDisj(ps), c)
  {
    hide Accumulated, ToDisj;
    var ps := Accumulated(gs, 1);
    ToDisjHas(ps);
  }

  /** A sequence with both signs, and the negation is right all the same. */
  lemma MixedSigns(a: Body, b: Body, c: Body, v: Body -> bool)
    requires a != b && b != c && a != c
    ensures Negates([[Lits(a, false), Lits(b, false)], [Lits(a, true), Lits(c, false)]], v)
  {
    hide Combined;
    var gs := [[Lits(a, false), Lits(b, false)], [Lits(a, true), Lits(c, false)]];
    MixedKept(a, b, c);
    var x: Conj, y: Conj, z: Conj := map[b := true, a := false], map[a := true, c := true], map[b := true, c := true];
    assert ConjHolds(x, v) <==> !v(b) && v(a);
    assert ConjHolds(y, v) <==> !v(a) && !v(c);
    assert ConjHolds(z, v) <==> !v(b) && !v(c);
    assert GroupHolds(gs[0], v) <==> v(a) && v(b) by {
      assert gs[0][0] == Lits(a, false) && gs[0][1] == Lits(b, false);
    }
    assert GroupHolds(gs[1], v) <==> !v(a) && v(c) by {
      assert gs[1][0] == Lits(a, true) && gs[1][1] == Lits(c, false);
    }
    assert DisjHolds(Combined(FlipEach(gs)), v) <==> ConjHolds(x, v) || ConjHolds(y, v) || ConjHolds(z, v);
    assert ListingHolds(gs, v) <==> GroupHolds(gs[0], v) || GroupHolds(gs[1], v);
  }

  // ---- with both signs, the order decides

  /** Of products with the same keys the first stays. */
  lemma {:induction false} FirstStays(cs: seq<Conj>, i: nat)
    requires i < |cs| && forall j :: 0 <= j < i ==> cs[j].Keys != cs[i].Keys
    ensures cs[i] in ToDisj(cs)
    decreases |cs|
  {
    var n := |cs| - 1;
    ToDisjHas(cs[..n]);
    if i < n {
      FirstStays(cs[..n], i);
    }
  }

  lemma {:induction false} OneForKeys(cs: seq<Conj>, c: Conj, e: Conj)
    requires c in ToDisj(cs) && e in ToDisj(cs) && c.Keys == e.Keys
    ensures c == e
    decreases |cs|
  {
    var n := |cs| - 1;
    if c in ToDisj(cs[..n]) && e in ToDisj(cs[..n]) {
      OneForKeys(cs[..n], c, e);
    }
  }

  /** A conjunction and its alternative, the sequences of the second visited in either order. */
  function Turned(a: Body, b: Body, x: Body, flip: bool): Listing {
    [[Lits(a, false), Lits(b, false), Lits(x, false)],
     if flip then [Lits(b, true), Lits(a, true)] else [Lits(a, true), Lits(b, true)]]
  }

  lemma TurnedProducts(a: Body, b: Body, x: Body)
    requires a != b && b != x && a != x
    ensures Accumulated(FlipEach(Turned(a, b, x, false)), 1)
         == [map[a := true], map[b := true, a := false], map[x := true, a := false],
             map[a := true, b := false], map[b := true], map[x := true, b := false]]
  {
    var fs := FlipEach(Turned(a, b, x, false));
    var cs := Singles(fs[0]);
    assert cs == [map[a := true], map[b := true], map[x := true]];
    assert fs[1] == [Lits(a, false), Lits(b, false)];
    WithTwo(cs, Lits(a, false), Lits(b, false));
  }

  lemma SameTurned(a: Body, b: Body, x: Body)
    requires a != b && b != x && a != x
    ensures Accumulated(FlipEach(Turned(a, b, x, true)), 1)
         == [map[a := true, b := false], map[b := true], map[x := true, b := false],
             map[a := true], map[b := true, a := false], map[x := true, a := false]]
  {
    var fs := FlipEach(Turned(a, b, x, true));
    var cs := Singles(fs[0]);
    assert cs == [map[a := true], map[b := true], map[x := true]];
    assert fs[1] == [Lits(b, false), Lits(a, false)];
    WithTwo(cs, Lits(b, false), Lits(a, false));
  }

  /** With both signs even the order in which one conjunction is visited decides what the negation means: two products
      have the same sequences with other signs, and the first one stays. */
  lemma OrderDecides(a: Body, b: Body, x: Body)
    requires a != b && b != x && a != x
    ensures var v := (y: Body) => y != a;
            && !ListingHolds(Turned(a, b, x, false), v) && !ListingHolds(Turned(a, b, x, true), v)
            && DisjHolds(Combined(FlipEach(Turned(a, b, x, true))), v)
            && !DisjHolds(Combined(FlipEach(Turned(a, b, x, false))), v)
  {
    hide Accumulated, ToDisj;
    var v: Body -> bool := y => y != a;
    NoneHolds(Turned(a, b, x, false), [0, 1], v);
    NoneHolds(Turned(a, b, x, true), [0, 0], v);
    HoldsTurned(a, b, x, v);
    FailsTurned(a, b, x, v);
  }

  lemma HoldsTurned(a: Body, b: Body, x: Body, v: Body -> bool)
    requires a != b && b != x && a != x && !v(a) && v(b)
    ensures DisjHolds(Combined(FlipEach(Turned(a, b, x, true))), v)
  {
    hide Accumulated, ToDisj;
    var ps := Accumulated(FlipEach(Turned(a, b, x, true)), 1);
    SameTurned(a, b, x);
    var d, c := ToDisj(ps), ps[0];
    ToDisjHas(ps);
    FirstStays(ps, 0);
    assert c.Keys == {a, b};
    forall e | e in d && e != map[] && c.Keys <= e.Keys ensures c.Keys == e.Keys {
      assert a in e && b in e;
    }
    assert ConjHolds(c, v);
    assert Maximal(d, c) && c in Combined(FlipEach(Turned(a, b, x, true)));
  }

  lemma FailsTurned(a: Body, b: Body, x: Body, v: Body -> bool)
    requires a != b && b != x && a != x && !v(a) && v(b) && v(x)
    ensures !DisjHolds(Combined(FlipEach(Turned(a, b, x, false))), v)
  {
    hide Accumulated, ToDisj;
    var ps := Accumulated(FlipEach(Turned(a, b, x, false)), 1);
    TurnedProducts(a, b, x);
    var d := ToDisj(ps);
    ToDisjHas(ps);
    assert a in ps[1] && b in ps[1] && ps[3].Keys == ps[1].Keys == {a, b} && ps[0].Keys == {a};
    FirstStays(ps, 1);
    Shadowed(d, ps[0], ps[1]);
    if ps[3] in d {
      OneForKeys(ps, ps[1], ps[3]);
      assert false;
    }
    forall c | c in Combined(FlipEach(Turned(a, b, x, false))) ensures !ConjHolds(c, v) {
      var i :| 0 <= i < |ps| && ps[i] == c;
      TurnedFails(a, b, x, v, ps, i);
    }
  }

  lemma TurnedFails(a: Body, b: Body, x: Body, v: Body -> bool, ps: seq<Conj>, i: nat)
    requires a != b && b != x && a != x && !v(a) && v(b) && v(x) && i < 6 && i != 0 && i != 3
    requires ps == [map[a := true], map[b := true, a := false], map[x := true, a := false],
                    map[a := true, b := false], map[b := true], map[x := true, b := false]]
    ensures !ConjHolds(ps[i], v)
  {
    var y := if i == 2 || i == 5 then x else b;
    assert y in ps[i] && ps[i][y];
  }
}
