/** Derived classes preserve meaning: an accepted rule's language in the Boolean grammar is exactly the set of
    one-character strings its predicate accepts, so scanning it as a class changes no language. */
module ClassLanguages {
  import opened Options
  import opened Grammars
  import opened CharClasses

  // ---- languages of a Boolean grammar, as solutions of its equations

  type Languages = nat -> iset<seq<int>>

  ghost predicate LitHas(L: Languages, l: Lit, w: seq<int>) {
    match l
    case Null => w == []
    case T(c) => w == [c]
    case NT(n) => w in L(n)
  }

  ghost predicate BodyHas(L: Languages, body: seq<Lit>, w: seq<int>)
    decreases |body|
  {
    if body == [] then w == []
    else exists k :: 0 <= k <= |w| && LitHas(L, body[0], w[..k]) && BodyHas(L, body[1..], w[k..])
  }

  /** All conjuncts hold of `w`: the positive ones match it, the negated ones do not. */
  ghost predicate ProdHas(L: Languages, p: BProd, w: seq<int>) {
    forall j :: 0 <= j < |p.conjs| ==> BodyHas(L, p.conjs[j].body, w) != p.conjs[j].neg
  }

  ghost predicate RuleHas(s: Source, on: set<string>, L: Languages, n: nat, w: seq<int>) {
    exists p :: 0 <= p < |s.prods| && s.prods[p].head == n && Enabled(s, on, p) && ProdHas(L, s.prods[p], w)
  }

  ghost predicate Single(w: seq<int>, accepts: int -> bool) {
    |w| == 1 && accepts(w[0])
  }

  /** Rules whose productions are not all in the source: nothing is said about their languages. */
  ghost predicate Open(s: Source, n: nat) {
    n in s.excluded || (if n in s.base then n in s.eof else n in s.dynamic)
  }

  ghost predicate RuleEquation(s: Source, on: set<string>, L: Languages, n: nat) {
    forall w :: w in L(n) <==> RuleHas(s, on, L, n, w)
  }

  ghost predicate ClassEquation(L: Languages, n: nat, accepts: int -> bool) {
    forall w :: w in L(n) <==> Single(w, accepts)
  }

  ghost function PredicateOf(s: Source, on: set<string>, n: nat): Expr
    requires Accepted(s, on, n)
  {
    var h :| Spec(s, on, h, n).Some?;
    Spec(s, on, h, n).value.e
  }

  /** `L` satisfies every equation, with the rules in `D` read as classes. */
  ghost predicate Solves(s: Source, on: set<string>, D: set<nat>, L: Languages)
    requires forall n :: n in D ==> Accepted(s, on, n)
  {
    forall n :: !Open(s, n) ==>
      if n in s.base then ClassEquation(L, n, c => c in s.base[n])
      else if n in D then ClassEquation(L, n, c => Eval(PredicateOf(s, on, n), c))
      else RuleEquation(s, on, L, n)
  }

  // ---- what the reference definition computes, character by character

  predicate LitAccepts(s: Source, on: set<string>, h: nat, l: Lit, c: int) {
    SpecLit(s, on, h, l).Some? && Eval(SpecLit(s, on, h, l).value.e, c)
  }

  predicate ConjsAccept(s: Source, on: set<string>, h: nat, conjs: seq<Conj>, j: nat, c: int)
    requires forall k :: j <= k < |conjs| ==> |conjs[k].body| == 1
  {
    forall k :: j <= k < |conjs| ==> LitAccepts(s, on, h, conjs[k].body[0], c) != conjs[k].neg
  }

  lemma {:induction false} ConjsMeaning(s: Source, on: set<string>, h: nat, conjs: seq<Conj>, j: nat, r: ConjsSoFar,
          c: int)
    requires j <= |conjs| && SpecConjs(s, on, h, conjs, j, r).Some?
    ensures forall k :: j <= k < |conjs| ==> |conjs[k].body| == 1 && SpecLit(s, on, h, conjs[k].body[0]).Some?
    ensures var r' := SpecConjs(s, on, h, conjs, j, r).value;
            && (Eval(AllOf(r'.subs), c) <==> Eval(AllOf(r.subs), c) && ConjsAccept(s, on, h, conjs, j, c))
            && (r'.positive <==> r.positive || exists k :: j <= k < |conjs| && !conjs[k].neg)
    decreases |conjs| - j
  {
    if j < |conjs| {
      var v := SpecLit(s, on, h, conjs[j].body[0]).value;
      var r1 := Conjoin(r, conjs[j].neg, v);
      ConjsMeaning(s, on, h, conjs, j + 1, r1, c);
      assert r1.subs[..|r.subs|] == r.subs && r1.subs[|r.subs|] == Wrap(conjs[j].neg, v.e);
      assert Eval(AllOf(r1.subs), c) <==> Eval(AllOf(r.subs), c) && Eval(Wrap(conjs[j].neg, v.e), c) by {
        forall k | 0 <= k < |r.subs| ensures r1.subs[k] == r.subs[k] {
        }
      }
    }
  }

  ghost predicate ProdAccepts(s: Source, on: set<string>, h: nat, p: BProd, c: int) {
    && (forall k :: 0 <= k < |p.conjs| ==> |p.conjs[k].body| == 1)
    && ConjsAccept(s, on, h, p.conjs, 0, c)
  }

  ghost predicate SingleProd(s: Source, on: set<string>, h: nat, p: BProd) {
    && (forall k :: 0 <= k < |p.conjs| ==> |p.conjs[k].body| == 1 && SpecLit(s, on, h, p.conjs[k].body[0]).Some?)
    && (exists k :: 0 <= k < |p.conjs| && !p.conjs[k].neg)
  }

  lemma {:induction false} AltsMeaning(s: Source, on: set<string>, h: nat, ps: seq<nat>, i: nat, alts: seq<Expr>,
          gs: set<string>, c: int)
    requires i <= |ps| && forall k :: 0 <= k < |ps| ==> ps[k] < |s.prods|
    requires SpecAlts(s, on, h, ps, i, alts, gs).Some?
    ensures forall k :: i <= k < |ps| ==> SingleProd(s, on, h, s.prods[ps[k]])
    ensures Eval(SpecAlts(s, on, h, ps, i, alts, gs).value.e, c) <==>
              Eval(AnyOf(alts), c) || exists k :: i <= k < |ps| && ProdAccepts(s, on, h, s.prods[ps[k]], c)
    decreases |ps| - i
  {
    if i < |ps| {
      var conjs := s.prods[ps[i]].conjs;
      var start := ConjsSoFar([], false, gs);
      ConjsMeaning(s, on, h, conjs, 0, start, c);
      var r := SpecConjs(s, on, h, conjs, 0, start).value;
      var alts' := alts + [AllOf(r.subs)];
      AltsMeaning(s, on, h, ps, i + 1, alts', r.guards, c);
      assert Eval(AllOf(r.subs), c) <==> ProdAccepts(s, on, h, s.prods[ps[i]], c);
      assert Eval(AnyOf(alts'), c) <==> Eval(AnyOf(alts), c) || Eval(AllOf(r.subs), c) by {
        assert alts'[|alts|] == AllOf(r.subs);
        assert forall k :: 0 <= k < |alts| ==> alts'[k] == alts[k];
      }
    }
  }

  // ---- from characters to strings

  lemma SingleBody(L: Languages, l: Lit, w: seq<int>)
    ensures BodyHas(L, [l], w) <==> LitHas(L, l, w)
  {
    assert [l][1..] == [];
    if LitHas(L, l, w) {
      assert w[..|w|] == w && w[|w|..] == [];
    }
    if BodyHas(L, [l], w) {
      var k :| 0 <= k <= |w| && LitHas(L, [l][0], w[..k]) && BodyHas(L, [l][1..], w[k..]);
      assert w[..k] == w;
    }
  }

  /** The languages of everything rule `n` uses are what their predicates accept. */
  ghost predicate UsedAreExact(s: Source, on: set<string>, h: nat, L: Languages, n: nat) {
    forall b, v :: Uses(s, on, n, b) && Spec(s, on, h, b) == Some(v) ==> forall w :: w in L(b) <==>
        Single(w, c => Eval(v.e, c))
  }

  lemma LitIsExact(s: Source, on: set<string>, h: nat, L: Languages, n: nat, p: nat, j: nat, w: seq<int>)
    requires p < |s.prods| && s.prods[p].head == n && Enabled(s, on, p) && j < |s.prods[p].conjs|
    requires |s.prods[p].conjs[j].body| == 1 && SpecLit(s, on, h, s.prods[p].conjs[j].body[0]).Some?
    requires UsedAreExact(s, on, h, L, n)
    ensures BodyHas(L, s.prods[p].conjs[j].body, w) <==>
            |w| == 1 && LitAccepts(s, on, h, s.prods[p].conjs[j].body[0], w[0])
  {
    var l := s.prods[p].conjs[j].body[0];
    assert s.prods[p].conjs[j].body == [l];
    SingleBody(L, l, w);
    if l.NT? {
      assert Uses(s, on, n, l.n);
      var v := Spec(s, on, h, l.n).value;
      assert w in L(l.n) <==> Single(w, c => Eval(v.e, c));
    }
  }

  lemma ProdIsExact(s: Source, on: set<string>, h: nat, L: Languages, n: nat, p: nat, w: seq<int>)
    requires p < |s.prods| && s.prods[p].head == n && Enabled(s, on, p) && SingleProd(s, on, h, s.prods[p])
    requires UsedAreExact(s, on, h, L, n)
    ensures ProdHas(L, s.prods[p], w) <==> |w| == 1 && ProdAccepts(s, on, h, s.prods[p], w[0])
  {
    var conjs := s.prods[p].conjs;
    forall j | 0 <= j < |conjs|
      ensures BodyHas(L, conjs[j].body, w) <==> |w| == 1 && LitAccepts(s, on, h, conjs[j].body[0], w[0])
    {
      LitIsExact(s, on, h, L, n, p, j, w);
    }
    if ProdHas(L, s.prods[p], w) {
      var k :| 0 <= k < |conjs| && !conjs[k].neg;
      assert BodyHas(L, conjs[k].body, w);
    }
  }

  /** An accepted rule's right-hand side describes exactly its predicate, once what it uses does. */
  lemma RuleIsExact(s: Source, on: set<string>, h: nat, L: Languages, n: nat, w: seq<int>)
    requires n !in s.base && h > 0 && Spec(s, on, h, n).Some? && UsedAreExact(s, on, h - 1, L, n)
    ensures RuleHas(s, on, L, n, w) <==> Single(w, c => Eval(Spec(s, on, h, n).value.e, c))
  {
    var ps := Prods(s, on, n);
    var e := Spec(s, on, h, n).value.e;
    AltsMeaning(s, on, h - 1, ps, 0, [], GuardsOf(s, ps), if |w| == 1 then w[0] else 0);
    forall k | 0 <= k < |ps|
      ensures ProdHas(L, s.prods[ps[k]], w) <==> |w| == 1 && ProdAccepts(s, on, h - 1, s.prods[ps[k]], w[0])
    {
      ProdIsExact(s, on, h - 1, L, n, ps[k], w);
    }
    assert !Eval(AnyOf([]), if |w| == 1 then w[0] else 0);
    if RuleHas(s, on, L, n, w) {
      var p :| 0 <= p < |s.prods| && s.prods[p].head == n && Enabled(s, on, p) && ProdHas(L, s.prods[p], w);
      var k :| 0 <= k < |ps| && ps[k] == p;
    }
  }

  lemma PredicateIsAny(s: Source, on: set<string>, h: nat, n: nat)
    requires Spec(s, on, h, n).Some?
    ensures Accepted(s, on, n) && PredicateOf(s, on, n) == Spec(s, on, h, n).value.e
  {
    var h' :| Spec(s, on, h', n).Some? && PredicateOf(s, on, n) == Spec(s, on, h', n).value.e;
    if h <= h' {
      SpecTaller(s, on, h, h', n);
    } else {
      SpecTaller(s, on, h', h, n);
    }
  }

  /** In every solution, an accepted rule's language is the one-character strings its predicate accepts. */
  lemma {:induction false} AcceptedIsExact(s: Source, on: set<string>, D: set<nat>, L: Languages, h: nat, n: nat)
    requires (forall d :: d in D ==> Accepted(s, on, d)) && Solves(s, on, D, L)
    requires Spec(s, on, h, n).Some?
    ensures forall w :: w in L(n) <==> Single(w, c => Eval(Spec(s, on, h, n).value.e, c))
    decreases h
  {
    assert !Open(s, n);
    if n in s.base {
      assert Spec(s, on, h, n).value.e == Fn(s.base[n]);
    } else if n in D {
      PredicateIsAny(s, on, h, n);
    } else {
      UsedByAcceptedAreExact(s, on, D, L, h, n);
      forall w ensures w in L(n) <==> Single(w, c => Eval(Spec(s, on, h, n).value.e, c)) {
        RuleIsExact(s, on, h, L, n, w);
      }
    }
  }

  lemma {:induction false} UsedByAcceptedAreExact(s: Source, on: set<string>, D: set<nat>, L: Languages, h: nat, n: nat)
    requires (forall d :: d in D ==> Accepted(s, on, d)) && Solves(s, on, D, L)
    requires n !in s.base && Spec(s, on, h, n).Some?
    ensures h > 0 && UsedAreExact(s, on, h - 1, L, n)
    decreases h, 0
  {
    forall b, v | Uses(s, on, n, b) && Spec(s, on, h - 1, b) == Some(v)
      ensures forall w :: w in L(b) <==> Single(w, c => Eval(v.e, c))
    {
      AcceptedIsExact(s, on, D, L, h - 1, b);
    }
  }

  /** Reading accepted rules as classes neither adds nor loses a solution. */
  lemma ClassesPreserveLanguages(s: Source, on: set<string>, D: set<nat>, L: Languages)
    requires forall n :: n in D ==> Accepted(s, on, n)
    ensures Solves(s, on, D, L) <==> Solves(s, on, {}, L)
  {
    if Solves(s, on, {}, L) {
      forall n | !Open(s, n) && n !in s.base && n in D
        ensures ClassEquation(L, n, c => Eval(PredicateOf(s, on, n), c))
      {
        var h :| Spec(s, on, h, n).Some?;
        AcceptedIsExact(s, on, {}, L, h, n);
        PredicateIsAny(s, on, h, n);
      }
    }
    if Solves(s, on, D, L) {
      forall n | !Open(s, n) && n !in s.base && n in D ensures RuleEquation(s, on, L, n) {
        var h :| Spec(s, on, h, n).Some?;
        UsedByAcceptedAreExact(s, on, D, L, h, n);
        AcceptedIsExact(s, on, D, L, h, n);
        forall w ensures w in L(n) <==> RuleHas(s, on, L, n, w) {
          RuleIsExact(s, on, h, L, n, w);
        }
      }
    }
  }
}
