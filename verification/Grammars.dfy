/** Context-free grammars with character classes, and what their literals derive.

    A production has one positive conjunct, so its body is a sequence of literals. A nonterminal
    that is a character class derives exactly the one-character strings its class accepts. */
module Grammars {
  import opened Options

  /** `Null` derives the empty string, `T(c)` the character `c`, and `NT(n)` what nonterminal `n` derives. */
  datatype Lit = Null | T(c: int) | NT(n: nat)

  datatype Prod = Prod(head: nat, body: seq<Lit>)

  datatype Grammar = Grammar(prods: seq<Prod>, classes: map<nat, set<int>>, start: nat)

  /** A Boolean production is a conjunction; `neg` marks a negated conjunct. */
  datatype Conj = Conj(neg: bool, body: seq<Lit>)
  datatype BProd = BProd(head: nat, conjs: seq<Conj>)

  /** Neither end-of-input value is an ordinary character. */
  predicate IsSentinel(c: int) {
    c == 0 || c == -1
  }

  /** No terminal and no class accepts an end-of-input value. */
  ghost predicate NoSentinels(g: Grammar) {
    && (forall p, k :: 0 <= p < |g.prods| && 0 <= k < |g.prods[p].body| && g.prods[p].body[k].T? ==>
          !IsSentinel(g.prods[p].body[k].c))
    && (forall n, c :: n in g.classes && c in g.classes[n] ==> !IsSentinel(c))
  }

  /** The literal at `k` stands right after a terminal. */
  predicate Behind(body: seq<Lit>, k: nat) {
    0 < k <= |body| && body[k - 1].T?
  }

  /** No `null` among the first `d` literals stands right after a terminal. */
  predicate Clear(body: seq<Lit>, d: nat) {
    forall k :: 0 <= k < d && k < |body| && body[k].Null? ==> !Behind(body, k)
  }

  /** `null` never stands right after a terminal (the format only allows it as a whole body). */
  ghost predicate NullsLead(g: Grammar) {
    forall p :: 0 <= p < |g.prods| ==> Clear(g.prods[p].body, |g.prods[p].body|)
  }

  function LiveProds(prods: seq<Prod>): (r: seq<Prod>)
    ensures forall q :: q in r <==> q in prods && Clear(q.body, |q.body|)
  {
    if prods == [] then []
    else
      var q := prods[|prods| - 1];
      assert prods == prods[..|prods| - 1] + [q];
      LiveProds(prods[..|prods| - 1]) + if Clear(q.body, |q.body|) then [q] else []
  }

  /** The grammar without the productions that have `null` right after a terminal. */
  function Live(g: Grammar): Grammar {
    Grammar(LiveProds(g.prods), g.classes, g.start)
  }

  ghost predicate ClassesNotNullable(g: Grammar) {
    forall n :: n in g.classes ==> !Nullable(g, n)
  }

  ghost predicate WellFormed(g: Grammar) {
    NoSentinels(g) && ClassesNotNullable(g) && g.start !in g.classes
  }

  /** `l` derives `w[i..j)` with a derivation tree of height at most `h`. */
  ghost predicate LitIn(g: Grammar, w: seq<int>, h: nat, l: Lit, i: nat, j: nat)
    decreases h, 0
  {
    match l
    case Null => i == j
    case T(c) => i < |w| && j == i + 1 && w[i] == c
    case NT(n) =>
      if n in g.classes then i < |w| && j == i + 1 && w[i] in g.classes[n]
      else h > 0 && exists p :: 0 <= p < |g.prods| && g.prods[p].head == n &&
                                PrefixIn(g, w, h - 1, g.prods[p].body, |g.prods[p].body|, i, j)
  }

  /** The first `d` literals of `body` derive `w[i..j)` with trees of height at most `h`. */
  ghost predicate PrefixIn(g: Grammar, w: seq<int>, h: nat, body: seq<Lit>, d: nat, i: nat, j: nat)
    requires d <= |body|
    decreases h, 2 * d + 1
  {
    if d == 0 then i == j else StepIn(g, w, h, body, d - 1, i, j)
  }

  /** The first `e` literals derive `w[i..k)` and the next one `w[k..j)`, for some `k`. */
  ghost predicate StepIn(g: Grammar, w: seq<int>, h: nat, body: seq<Lit>, e: nat, i: nat, j: nat)
    requires e < |body|
    decreases h, 2 * e + 2
  {
    exists k: nat :: PrefixIn(g, w, h, body, e, i, k) && LitIn(g, w, h, body[e], k, j)
  }

  ghost predicate Derives(g: Grammar, w: seq<int>, l: Lit, i: nat, j: nat) {
    exists h :: LitIn(g, w, h, l, i, j)
  }

  ghost predicate PrefixDerives(g: Grammar, w: seq<int>, body: seq<Lit>, d: nat, i: nat, j: nat)
    requires d <= |body|
  {
    exists h :: PrefixIn(g, w, h, body, d, i, j)
  }

  lemma {:induction false} Taller(g: Grammar, w: seq<int>, h: nat, h': nat, l: Lit, i: nat, j: nat)
    requires LitIn(g, w, h, l, i, j) && h <= h'
    ensures LitIn(g, w, h', l, i, j)
    decreases h, 0
  {
    if l.NT? && l.n !in g.classes {
      var p :| 0 <= p < |g.prods| && g.prods[p].head == l.n &&
               PrefixIn(g, w, h - 1, g.prods[p].body, |g.prods[p].body|, i, j);
      TallerPrefix(g, w, h - 1, h' - 1, g.prods[p].body, |g.prods[p].body|, i, j);
    }
  }

  lemma {:induction false} TallerPrefix(g: Grammar, w: seq<int>, h: nat, h': nat, body: seq<Lit>, d: nat, i: nat,
          j: nat)
    requires d <= |body| && PrefixIn(g, w, h, body, d, i, j) && h <= h'
    ensures PrefixIn(g, w, h', body, d, i, j)
    decreases h, d + 1
  {
    if d > 0 {
      var k: nat :| PrefixIn(g, w, h, body, d - 1, i, k) && LitIn(g, w, h, body[d - 1], k, j);
      TallerPrefix(g, w, h, h', body, d - 1, i, k);
      Taller(g, w, h, h', body[d - 1], k, j);
    }
  }

  /** A derived span lies inside the input and runs forwards. */
  lemma {:induction false} SpanOrder(g: Grammar, w: seq<int>, h: nat, l: Lit, i: nat, j: nat)
    requires LitIn(g, w, h, l, i, j)
    ensures i <= j && (i <= |w| ==> j <= |w|)
    decreases h, 0
  {
    if l.NT? && l.n !in g.classes {
      var p :| 0 <= p < |g.prods| && g.prods[p].head == l.n &&
               PrefixIn(g, w, h - 1, g.prods[p].body, |g.prods[p].body|, i, j);
      PrefixSpanOrder(g, w, h - 1, g.prods[p].body, |g.prods[p].body|, i, j);
    }
  }

  lemma {:induction false} PrefixSpanOrder(g: Grammar, w: seq<int>, h: nat, body: seq<Lit>, d: nat, i: nat, j: nat)
    requires d <= |body| && PrefixIn(g, w, h, body, d, i, j)
    ensures i <= j && (i <= |w| ==> j <= |w|)
    decreases h, d + 1
  {
    if d > 0 {
      var k: nat :| PrefixIn(g, w, h, body, d - 1, i, k) && LitIn(g, w, h, body[d - 1], k, j);
      PrefixSpanOrder(g, w, h, body, d - 1, i, k);
      SpanOrder(g, w, h, body[d - 1], k, j);
    }
  }

  /** A derived prefix extends by a derived literal. */
  lemma Extend(g: Grammar, w: seq<int>, body: seq<Lit>, d: nat, i: nat, k: nat, j: nat)
    requires d < |body| && PrefixDerives(g, w, body, d, i, k) && Derives(g, w, body[d], k, j)
    ensures PrefixDerives(g, w, body, d + 1, i, j)
  {
    var h1 :| PrefixIn(g, w, h1, body, d, i, k);
    var h2 :| LitIn(g, w, h2, body[d], k, j);
    var h := if h1 > h2 then h1 else h2;
    TallerPrefix(g, w, h1, h, body, d, i, k);
    Taller(g, w, h2, h, body[d], k, j);
    assert PrefixIn(g, w, h, body, d + 1, i, j);
  }

  /** A whole derived body derives its head. */
  lemma Reduce(g: Grammar, w: seq<int>, p: nat, i: nat, j: nat)
    requires p < |g.prods| && g.prods[p].head !in g.classes
    requires PrefixDerives(g, w, g.prods[p].body, |g.prods[p].body|, i, j)
    ensures Derives(g, w, NT(g.prods[p].head), i, j)
  {
    var h: nat :| PrefixIn(g, w, h, g.prods[p].body, |g.prods[p].body|, i, j);
    assert LitIn(g, w, h + 1, NT(g.prods[p].head), i, j);
  }

  // ---- nonterminals that derive the empty string

  ghost predicate NullableIn(g: Grammar, h: nat, n: nat)
    decreases h, 0
  {
    h > 0 && exists p :: 0 <= p < |g.prods| && g.prods[p].head == n && AllNullIn(g, h - 1, g.prods[p].body)
  }

  ghost predicate AllNullIn(g: Grammar, h: nat, body: seq<Lit>)
    decreases h, 1
  {
    forall k :: 0 <= k < |body| ==> body[k].Null? || (body[k].NT? && NullableIn(g, h, body[k].n))
  }

  ghost predicate Nullable(g: Grammar, n: nat) {
    exists h :: NullableIn(g, h, n)
  }

  ghost predicate NullableLit(g: Grammar, l: Lit) {
    l.Null? || (l.NT? && Nullable(g, l.n))
  }

  lemma {:induction false} NullableTaller(g: Grammar, h: nat, h': nat, n: nat)
    requires NullableIn(g, h, n) && h <= h'
    ensures NullableIn(g, h', n)
    decreases h
  {
    var p :| 0 <= p < |g.prods| && g.prods[p].head == n && AllNullIn(g, h - 1, g.prods[p].body);
    var body := g.prods[p].body;
    forall k | 0 <= k < |body| && body[k].NT? ensures NullableIn(g, h' - 1, body[k].n) {
      NullableTaller(g, h - 1, h' - 1, body[k].n);
    }
    assert AllNullIn(g, h' - 1, body);
  }

  /** What the nullable analysis accepts does derive the empty string, at every position. */
  lemma {:induction false} NullableDerives(g: Grammar, w: seq<int>, h: nat, n: nat, i: nat)
    requires ClassesNotNullable(g) && NullableIn(g, h, n)
    ensures LitIn(g, w, h, NT(n), i, i)
    decreases h, 0
  {
    var p :| 0 <= p < |g.prods| && g.prods[p].head == n && AllNullIn(g, h - 1, g.prods[p].body);
    var body := g.prods[p].body;
    AllNullDerives(g, w, h - 1, body, |body|, i);
    assert Nullable(g, n);
  }

  lemma {:induction false} AllNullDerives(g: Grammar, w: seq<int>, h: nat, body: seq<Lit>, d: nat, i: nat)
    requires ClassesNotNullable(g) && d <= |body| && AllNullIn(g, h, body)
    ensures PrefixIn(g, w, h, body, d, i, i)
    decreases h, d + 1
  {
    if d > 0 {
      AllNullDerives(g, w, h, body, d - 1, i);
      if body[d - 1].NT? {
        NullableDerives(g, w, h, body[d - 1].n, i);
      }
      assert PrefixIn(g, w, h, body, d - 1, i, i) && LitIn(g, w, h, body[d - 1], i, i);
    }
  }

  /** Conversely, whatever derives an empty span is nullable. */
  lemma {:induction false} EmptyIsNullable(g: Grammar, w: seq<int>, h: nat, l: Lit, i: nat)
    requires LitIn(g, w, h, l, i, i)
    ensures l.Null? || (l.NT? && NullableIn(g, h, l.n))
    decreases h, 0
  {
    if l.NT? {
      var p :| 0 <= p < |g.prods| && g.prods[p].head == l.n &&
               PrefixIn(g, w, h - 1, g.prods[p].body, |g.prods[p].body|, i, i);
      var body := g.prods[p].body;
      forall k | 0 <= k < |body|
        ensures body[k].Null? || (body[k].NT? && NullableIn(g, h - 1, body[k].n))
      {
        EmptyPrefixIsNullable(g, w, h - 1, body, |body|, i, k);
      }
      assert AllNullIn(g, h - 1, body);
    }
  }

  lemma {:induction false} EmptyPrefixIsNullable(g: Grammar, w: seq<int>, h: nat, body: seq<Lit>, d: nat, i: nat,
          k: nat)
    requires k < d <= |body| && PrefixIn(g, w, h, body, d, i, i)
    ensures body[k].Null? || (body[k].NT? && NullableIn(g, h, body[k].n))
    decreases h, d + 1
  {
    var m: nat :| PrefixIn(g, w, h, body, d - 1, i, m) && LitIn(g, w, h, body[d - 1], m, i);
    PrefixSpanOrder(g, w, h, body, d - 1, i, m);
    SpanOrder(g, w, h, body[d - 1], m, i);
    if k == d - 1 {
      EmptyIsNullable(g, w, h, body[d - 1], i);
    } else {
      EmptyPrefixIsNullable(g, w, h, body, d - 1, i, k);
    }
  }

  /** The nullable analysis is exact: a nonterminal is nullable iff it derives the empty string. */
  lemma NullableIsExact(g: Grammar, w: seq<int>, n: nat, i: nat)
    requires ClassesNotNullable(g)
    ensures Nullable(g, n) <==> Derives(g, w, NT(n), i, i)
  {
    if Nullable(g, n) {
      var h :| NullableIn(g, h, n);
      NullableDerives(g, w, h, n, i);
    }
    if Derives(g, w, NT(n), i, i) {
      var h :| LitIn(g, w, h, NT(n), i, i);
      EmptyIsNullable(g, w, h, NT(n), i);
    }
  }

  // ---- the live part of a grammar

  lemma {:induction false} LiveProdsWhole(prods: seq<Prod>)
    requires forall p :: 0 <= p < |prods| ==> Clear(prods[p].body, |prods[p].body|)
    ensures LiveProds(prods) == prods
  {
    hide Clear;
    if prods != [] {
      var n := |prods| - 1;
      assert prods == prods[..n] + [prods[n]];
      LiveProdsWhole(prods[..n]);
    }
  }

  /** Grammars of the documented form lose nothing. */
  lemma LiveIsWhole(g: Grammar)
    requires NullsLead(g)
    ensures Live(g) == g
  {
    LiveProdsWhole(g.prods);
  }

  lemma LiveProdIn(g: Grammar, p: nat) returns (q: nat)
    requires p < |g.prods| && Clear(g.prods[p].body, |g.prods[p].body|)
    ensures q < |Live(g).prods| && Live(g).prods[q] == g.prods[p]
  {
    assert g.prods[p] in Live(g).prods;
    q :| 0 <= q < |Live(g).prods| && Live(g).prods[q] == g.prods[p];
  }

  lemma LiveProdFrom(g: Grammar, q: nat) returns (p: nat)
    requires q < |Live(g).prods|
    ensures p < |g.prods| && g.prods[p] == Live(g).prods[q] && Clear(g.prods[p].body, |g.prods[p].body|)
  {
    assert Live(g).prods[q] in Live(g).prods;
    p :| 0 <= p < |g.prods| && g.prods[p] == Live(g).prods[q];
  }

  /** A live derivation is a derivation. */
  lemma {:induction false} LiveDerives(g: Grammar, w: seq<int>, h: nat, l: Lit, i: nat, j: nat)
    requires LitIn(Live(g), w, h, l, i, j)
    ensures LitIn(g, w, h, l, i, j)
    decreases h, 0
  {
    if l.NT? && l.n !in g.classes {
      var L := Live(g);
      var q: nat :| q < |L.prods| && L.prods[q].head == l.n
          && PrefixIn(L, w, h - 1, L.prods[q].body, |L.prods[q].body|, i, j);
      var p := LiveProdFrom(g, q);
      LivePrefixDerives(g, w, h - 1, g.prods[p].body, |g.prods[p].body|, i, j);
    }
  }

  lemma {:induction false} LivePrefixDerives(g: Grammar, w: seq<int>, h: nat, body: seq<Lit>, d: nat, i: nat, j: nat)
    requires d <= |body| && PrefixIn(Live(g), w, h, body, d, i, j)
    ensures PrefixIn(g, w, h, body, d, i, j)
    decreases h, d + 1
  {
    if d > 0 {
      assert StepIn(Live(g), w, h, body, d - 1, i, j);
      var k: nat :| PrefixIn(Live(g), w, h, body, d - 1, i, k) && LitIn(Live(g), w, h, body[d - 1], k, j);
      LivePrefixDerives(g, w, h, body, d - 1, i, k);
      LiveDerives(g, w, h, body[d - 1], k, j);
      assert StepIn(g, w, h, body, d - 1, i, j);
    }
  }

  /** What a production without a terminal derives, the live part derives: both have the same nullables. */
  lemma {:induction false} NullableLives(g: Grammar, h: nat, n: nat)
    ensures NullableIn(g, h, n) <==> NullableIn(Live(g), h, n)
    decreases h, 0
  {
    var L := Live(g);
    if NullableIn(g, h, n) {
      var p: nat :| p < |g.prods| && g.prods[p].head == n && AllNullIn(g, h - 1, g.prods[p].body);
      AllNullLives(g, h - 1, g.prods[p].body);
      var q := LiveProdIn(g, p);
      assert L.prods[q].head == n && AllNullIn(L, h - 1, L.prods[q].body);
    }
    if NullableIn(L, h, n) {
      var q: nat :| q < |L.prods| && L.prods[q].head == n && AllNullIn(L, h - 1, L.prods[q].body);
      AllNullLives(g, h - 1, L.prods[q].body);
      var p := LiveProdFrom(g, q);
      assert g.prods[p].head == n && AllNullIn(g, h - 1, g.prods[p].body);
    }
  }

  lemma {:induction false} AllNullLives(g: Grammar, h: nat, body: seq<Lit>)
    ensures AllNullIn(g, h, body) <==> AllNullIn(Live(g), h, body)
    ensures AllNullIn(g, h, body) ==> Clear(body, |body|)
    decreases h, 1
  {
    forall k | 0 <= k < |body| && body[k].NT?
      ensures NullableIn(g, h, body[k].n) <==> NullableIn(Live(g), h, body[k].n)
    {
      NullableLives(g, h, body[k].n);
    }
  }

  lemma SameNullables(g: Grammar, n: nat)
    ensures Nullable(g, n) <==> Nullable(Live(g), n)
  {
    if Nullable(g, n) {
      var h :| NullableIn(g, h, n);
      NullableLives(g, h, n);
    }
    if Nullable(Live(g), n) {
      var h :| NullableIn(Live(g), h, n);
      NullableLives(g, h, n);
    }
  }

  /** A grammar whose language is larger than that of its live part: S => 'a' null, on "a". */
  lemma NullBehindTerminal(a: int)
    ensures var g := Grammar([Prod(0, [T(a), Null])], map[], 0);
            Derives(g, [a], NT(0), 0, 1) && !Derives(Live(g), [a], NT(0), 0, 1)
  {
    var body := [T(a), Null];
    var g := Grammar([Prod(0, body)], map[], 0);
    assert PrefixIn(g, [a], 0, body, 0, 0, 0) && LitIn(g, [a], 0, body[0], 0, 1);
    assert StepIn(g, [a], 0, body, 0, 0, 1) && LitIn(g, [a], 0, body[1], 1, 1);
    assert StepIn(g, [a], 0, body, 1, 0, 1) && g.prods[0].body == body;
    assert PrefixIn(g, [a], 0, body, 2, 0, 1);
    assert LitIn(g, [a], 1, NT(0), 0, 1);
    assert body[1].Null? && Behind(body, 1);
    assert !Clear(body, |body|);
  }

  // ---- the fixpoint that computes them

  predicate AllNulls(nullables: set<nat>, body: seq<Lit>) {
    forall k :: 0 <= k < |body| ==> body[k].Null? || (body[k].NT? && body[k].n in nullables)
  }

  /** A set closed under the productions holds every nullable nonterminal. */
  lemma {:induction false} ClosedHoldsNullables(g: Grammar, ns: set<nat>, h: nat, n: nat)
    requires forall p :: 0 <= p < |g.prods| && AllNulls(ns, g.prods[p].body) ==> g.prods[p].head in ns
    requires NullableIn(g, h, n)
    ensures n in ns
    decreases h
  {
    var p :| 0 <= p < |g.prods| && g.prods[p].head == n && AllNullIn(g, h - 1, g.prods[p].body);
    var body := g.prods[p].body;
    forall k | 0 <= k < |body| && body[k].NT? ensures body[k].n in ns {
      ClosedHoldsNullables(g, ns, h - 1, body[k].n);
    }
  }

  /** A body of nullable literals makes its head nullable. */
  lemma AllNullsIsNullable(g: Grammar, ns: set<nat>, p: nat)
    requires OnlyNullables(g, ns)
    requires p < |g.prods| && AllNulls(ns, g.prods[p].body)
    ensures Nullable(g, g.prods[p].head)
  {
    var h := CommonHeight(g, ns, g.prods[p].body);
    assert NullableIn(g, h + 1, g.prods[p].head);
  }

  lemma {:induction false} CommonHeight(g: Grammar, ns: set<nat>, body: seq<Lit>) returns (h: nat)
    requires OnlyNullables(g, ns)
    requires AllNulls(ns, body)
    ensures AllNullIn(g, h, body)
  {
    h := 0;
    if body != [] {
      var rest := body[..|body| - 1];
      var last := body[|body| - 1];
      var h1 := CommonHeight(g, ns, rest);
      var h2 := 0;
      if last.NT? {
        h2 :| NullableIn(g, h2, last.n);
      }
      h := if h1 > h2 then h1 else h2;
      forall k | 0 <= k < |body| && body[k].NT? ensures NullableIn(g, h, body[k].n) {
        NullableTaller(g, if k < |rest| then h1 else h2, h, body[k].n);
      }
    }
  }

  function Heads(prods: seq<Prod>): set<nat> {
    set p | 0 <= p < |prods| :: prods[p].head
  }

  /** No production below `n` has a body of nullable literals and a head outside `ns`. */
  ghost predicate ClosedBelow(g: Grammar, ns: set<nat>, n: nat)
    requires n <= |g.prods|
  {
    forall p :: 0 <= p < n && AllNulls(ns, g.prods[p].body) ==> g.prods[p].head in ns
  }

  ghost predicate OnlyNullables(g: Grammar, ns: set<nat>) {
    forall n :: n in ns ==> Nullable(g, n)
  }

  ghost predicate NullablesExact(g: Grammar, ns: set<nat>) {
    forall n :: n in ns <==> Nullable(g, n)
  }

  /** Sweeps the productions until no sweep adds a head. */
  method ComputeNullables(g: Grammar) returns (nullables: set<nat>)
    ensures NullablesExact(g, nullables)
  {
    hide Nullable;
    nullables := {};
    var grew := true;
    while grew
      invariant OnlyNullables(g, nullables) && nullables <= Heads(g.prods)
      invariant !grew ==> ClosedBelow(g, nullables, |g.prods|)
      decreases |Heads(g.prods) - nullables|, if grew then 1 else 0
    {
      ghost var before := nullables;
      var k := |nullables|;
      var p := 0;
      while p < |g.prods|
        invariant 0 <= p <= |g.prods|
        invariant before <= nullables <= Heads(g.prods) && OnlyNullables(g, nullables)
        invariant nullables == before ==> ClosedBelow(g, nullables, p)
      {
        if AllNulls(nullables, g.prods[p].body) {
          AllNullsIsNullable(g, nullables, p);
          nullables := nullables + {g.prods[p].head};
        }
        p := p + 1;
      }
      grew := |nullables| != k;
      Bigger(before, nullables);
      Bigger(Heads(g.prods) - nullables, Heads(g.prods) - before);
    }
    ClosedIsExact(g, nullables);
  }

  lemma ClosedIsExact(g: Grammar, ns: set<nat>)
    requires OnlyNullables(g, ns) && ClosedBelow(g, ns, |g.prods|)
    ensures NullablesExact(g, ns)
  {
    forall n | Nullable(g, n) ensures n in ns {
      var h :| NullableIn(g, h, n);
      ClosedHoldsNullables(g, ns, h, n);
    }
  }
}
