/** Which rules become classes, told of the source alone: what their productions must be, how large they may get, and
    which guards they read. */
module ClassAcceptance {
  import opened Options
  import opened Grammars
  import opened CharClasses
  import opened ClassLanguages

  // ---- sizes, by their own recurrences

  datatype Size = Size(nodes: nat, depth: nat)

  function Max(a: nat, b: nat): nat {
    if a > b then a else b
  }

  /** A predefined class and a terminal are one node each; a rule is one node above its productions. */
  function RuleSize(s: Source, on: set<string>, h: nat, n: nat): Size
    decreases h, 0
  {
    if n in s.base || h == 0 then Size(1, 1)
    else
      var ps := Prods(s, on, n);
      var below := ProdsSize(s, on, h - 1, ps, |ps|);
      Size(below.nodes + 1, below.depth + 1)
  }

  /** Each of the first `k` productions is one node above its conjuncts. */
  function ProdsSize(s: Source, on: set<string>, h: nat, ps: seq<nat>, k: nat): Size
    requires k <= |ps| && forall i :: 0 <= i < |ps| ==> ps[i] < |s.prods|
    decreases h, 3, k
  {
    if k == 0 then Size(0, 0)
    else
      var before := ProdsSize(s, on, h, ps, k - 1);
      var conjs := s.prods[ps[k - 1]].conjs;
      var last := ConjsSize(s, on, h, conjs, |conjs|);
      Size(before.nodes + last.nodes + 1, Max(before.depth, last.depth + 1))
  }

  /** A negated conjunct is one node more than its literal. */
  function ConjsSize(s: Source, on: set<string>, h: nat, conjs: seq<Conj>, k: nat): Size
    requires k <= |conjs|
    decreases h, 2, k
  {
    if k == 0 then Size(0, 0)
    else
      var before := ConjsSize(s, on, h, conjs, k - 1);
      var last := if conjs[k - 1].body == [] then Size(1, 1) else LitSize(s, on, h, conjs[k - 1].body[0]);
      var more := if conjs[k - 1].neg then 1 else 0;
      Size(before.nodes + last.nodes + more, Max(before.depth, last.depth + more))
  }

  function LitSize(s: Source, on: set<string>, h: nat, l: Lit): Size
    decreases h, 1
  {
    if l.NT? then RuleSize(s, on, h, l.n) else Size(1, 1)
  }

  // ---- what a rule must be

  /** At most 256 nodes in at most 64 levels, over rules that are accepted themselves. */
  ghost predicate Fits(s: Source, on: set<string>, h: nat, n: nat)
    decreases h, 0
  {
    && n !in s.excluded
    && if n in s.base then n !in s.eof
       else
         && n != s.start && n !in s.nullables && n !in s.dynamic && h > 0 && Prods(s, on, n) != []
         && (forall k :: 0 <= k < |Prods(s, on, n)| ==> ProdFits(s, on, h - 1, s.prods[Prods(s, on, n)[k]].conjs))
         && RuleSize(s, on, h, n).nodes <= 256 && RuleSize(s, on, h, n).depth <= 64
  }

  /** Every conjunct is one literal that always matches one character, and some conjunct is positive. */
  ghost predicate ProdFits(s: Source, on: set<string>, h: nat, conjs: seq<Conj>)
    decreases h, 2
  {
    && (forall j :: 0 <= j < |conjs| ==> |conjs[j].body| == 1 && LitFits(s, on, h, conjs[j].body[0]))
    && (exists j :: 0 <= j < |conjs| && !conjs[j].neg)
  }

  ghost predicate LitFits(s: Source, on: set<string>, h: nat, l: Lit)
    decreases h, 1
  {
    match l
    case Null => false
    case T(c) => c != 0 && c != -1
    case NT(n) => Fits(s, on, h, n)
  }

  /** Whether a rule is accepted, within a bound on the depth of uses. */
  lemma {:induction false} SpecFits(s: Source, on: set<string>, h: nat, n: nat)
    ensures Spec(s, on, h, n).Some? <==> Fits(s, on, h, n)
    ensures Spec(s, on, h, n).Some? ==>
              var e := Spec(s, on, h, n).value.e; Size(NodeCount(e), Depth(e)) == RuleSize(s, on, h, n)
    decreases h, 0
  {
    hide TooLarge, ProdFits, ProdsSize;
    if !(n in s.excluded || n in s.base || n == s.start || n in s.nullables || n in s.dynamic || h == 0) {
      var ps := Prods(s, on, n);
      if ps != [] {
        NoProds(s, on, h - 1, ps);
        AltsFit(s, on, h - 1, ps, 0, [], GuardsOf(s, ps));
      }
    }
  }

  lemma NoProds(s: Source, on: set<string>, h: nat, ps: seq<nat>)
    requires forall i :: 0 <= i < |ps| ==> ps[i] < |s.prods|
    ensures ProdsSize(s, on, h, ps, 0) == Size(0, 0) && NodeCounts([]) == 0 && Depths([]) == 0
  {
  }

  lemma {:induction false} ProdsGrow(s: Source, on: set<string>, h: nat, ps: seq<nat>, j: nat, k: nat)
    requires j <= k <= |ps| && forall i :: 0 <= i < |ps| ==> ps[i] < |s.prods|
    ensures ProdsSize(s, on, h, ps, j).nodes <= ProdsSize(s, on, h, ps, k).nodes
    ensures ProdsSize(s, on, h, ps, j).depth <= ProdsSize(s, on, h, ps, k).depth
    decreases k
  {
    hide ConjsSize;
    if j < k {
      ProdsGrow(s, on, h, ps, j, k - 1);
    }
  }

  lemma OneMoreSub(es: seq<Expr>, e: Expr)
    ensures NodeCounts(es + [e]) == NodeCounts(es) + NodeCount(e)
    ensures Depths(es + [e]) == Max(Depths(es), Depth(e))
  {
    assert (es + [e])[..|es|] == es;
  }

  lemma {:induction false} AltsFit(s: Source, on: set<string>, h: nat, ps: seq<nat>, i: nat, alts: seq<Expr>,
          gs: set<string>)
    requires i <= |ps| && forall k :: 0 <= k < |ps| ==> ps[k] < |s.prods|
    requires Size(NodeCounts(alts), Depths(alts)) == ProdsSize(s, on, h, ps, i)
    ensures var whole := ProdsSize(s, on, h, ps, |ps|);
            SpecAlts(s, on, h, ps, i, alts, gs).Some? <==>
              && (forall k :: i <= k < |ps| ==> ProdFits(s, on, h, s.prods[ps[k]].conjs))
              && (i == |ps| || (whole.nodes + 1 <= 256 && whole.depth + 1 <= 64))
    ensures SpecAlts(s, on, h, ps, i, alts, gs).Some? ==>
              var e := SpecAlts(s, on, h, ps, i, alts, gs).value.e;
              var whole := ProdsSize(s, on, h, ps, |ps|);
              NodeCount(e) == whole.nodes + 1 && Depth(e) == whole.depth + 1
    decreases h, 3, |ps| - i
  {
    hide ConjsSize, ProdFits, SpecConjs, NodeCounts, Depths;
    if i < |ps| {
      var conjs := s.prods[ps[i]].conjs;
      var start := ConjsSoFar([], false, gs);
      NoConjs(s, on, h, conjs);
      ConjsFit(s, on, h, conjs, 0, start);
      ProdFitsMeans(s, on, h, conjs);
      ProdsGrow(s, on, h, ps, i + 1, |ps|);
      if ProdFits(s, on, h, conjs) {
        var r := SpecConjs(s, on, h, conjs, 0, start).value;
        OneMoreSub(alts, AllOf(r.subs));
        AltsFit(s, on, h, ps, i + 1, alts + [AllOf(r.subs)], r.guards);
      }
    }
  }

  lemma NoConjs(s: Source, on: set<string>, h: nat, conjs: seq<Conj>)
    ensures ConjsSize(s, on, h, conjs, 0) == Size(0, 0) && NodeCounts([]) == 0 && Depths([]) == 0
  {
  }

  lemma ProdFitsMeans(s: Source, on: set<string>, h: nat, conjs: seq<Conj>)
    ensures ProdFits(s, on, h, conjs) <==>
            ConjsFrom(s, on, h, conjs, 0) && exists j :: 0 <= j < |conjs| && !conjs[j].neg
  {
  }

  ghost predicate ConjsFrom(s: Source, on: set<string>, h: nat, conjs: seq<Conj>, j: nat) {
    forall k :: j <= k < |conjs| ==> |conjs[k].body| == 1 && LitFits(s, on, h, conjs[k].body[0])
  }

  lemma {:induction false} ConjsFit(s: Source, on: set<string>, h: nat, conjs: seq<Conj>, j: nat, r: ConjsSoFar)
    requires j <= |conjs| && Size(NodeCounts(r.subs), Depths(r.subs)) == ConjsSize(s, on, h, conjs, j)
    ensures SpecConjs(s, on, h, conjs, j, r).Some? <==> ConjsFrom(s, on, h, conjs, j)
    ensures SpecConjs(s, on, h, conjs, j, r).Some? ==>
              var r' := SpecConjs(s, on, h, conjs, j, r).value;
              && Size(NodeCounts(r'.subs), Depths(r'.subs)) == ConjsSize(s, on, h, conjs, |conjs|)
              && (r'.positive <==> r.positive || exists k :: j <= k < |conjs| && !conjs[k].neg)
    decreases h, 2, |conjs| - j
  {
    hide LitFits, LitSize, NodeCounts, Depths;
    if j < |conjs| && |conjs[j].body| == 1 {
      var l := conjs[j].body[0];
      LitFit(s, on, h, l);
      if LitFits(s, on, h, l) {
        var v := SpecLit(s, on, h, l).value;
        var e := Wrap(conjs[j].neg, v.e);
        OneMoreSub(r.subs, e);
        ConjsFit(s, on, h, conjs, j + 1, Conjoin(r, conjs[j].neg, v));
      }
    }
  }

  lemma {:induction false} LitFit(s: Source, on: set<string>, h: nat, l: Lit)
    ensures SpecLit(s, on, h, l).Some? <==> LitFits(s, on, h, l)
    ensures SpecLit(s, on, h, l).Some? ==>
              var e := SpecLit(s, on, h, l).value.e; Size(NodeCount(e), Depth(e)) == LitSize(s, on, h, l)
    decreases h, 1
  {
    if l.NT? {
      SpecFits(s, on, h, l.n);
    }
  }

  /** A rule is accepted exactly when it fits, over rules that fit, however deep their uses go. */
  lemma AcceptedExactly(s: Source, on: set<string>, n: nat)
    ensures Accepted(s, on, n) <==> exists h: nat :: Fits(s, on, h, n)
  {
    hide Fits, Spec;
    if Accepted(s, on, n) {
      var h :| Spec(s, on, h, n).Some?;
      SpecFits(s, on, h, n);
    }
    if h: nat :| Fits(s, on, h, n) {
      SpecFits(s, on, h, n);
    }
  }

  // ---- alternatives of terminals

  /** Production `p` is one terminal that is a character. */
  ghost predicate OneTerminal(p: BProd) {
    |p.conjs| == 1 && !p.conjs[0].neg && |p.conjs[0].body| == 1 && p.conjs[0].body[0].T?
    && p.conjs[0].body[0].c != 0 && p.conjs[0].body[0].c != -1
  }

  ghost predicate Ordinary(s: Source, n: nat) {
    n !in s.excluded && n !in s.base && n != s.start && n !in s.nullables && n !in s.dynamic
  }

  lemma {:induction false} TerminalsSize(s: Source, on: set<string>, h: nat, ps: seq<nat>, k: nat)
    requires k <= |ps| && forall i :: 0 <= i < |ps| ==> ps[i] < |s.prods| && OneTerminal(s.prods[ps[i]])
    ensures ProdsSize(s, on, h, ps, k) == Size(2 * k, if k == 0 then 0 else 2)
    decreases k
  {
    if k > 0 {
      TerminalsSize(s, on, h, ps, k - 1);
      var conjs := s.prods[ps[k - 1]].conjs;
      assert ConjsSize(s, on, h, conjs, 0) == Size(0, 0);
      assert ConjsSize(s, on, h, conjs, 1) == Size(1, 1);
    }
  }

  /** A rule whose alternatives are terminals is accepted exactly when it has at most 127 of them, and then its
      predicate accepts exactly these. */
  lemma TerminalsExactly(s: Source, on: set<string>, n: nat)
    requires Ordinary(s, n) && Prods(s, on, n) != []
    requires forall k :: 0 <= k < |Prods(s, on, n)| ==> OneTerminal(s.prods[Prods(s, on, n)[k]])
    ensures Accepted(s, on, n) <==> 2 * |Prods(s, on, n)| + 1 <= 256
    ensures Accepted(s, on, n) ==> forall c :: Eval(PredicateOf(s, on, n), c) <==>
              exists p :: p in Prods(s, on, n) && p < |s.prods| && s.prods[p].conjs == [Conj(false, [T(c)])]
  {
    hide Eval, Spec;
    var ps := Prods(s, on, n);
    AcceptedExactly(s, on, n);
    TerminalsSize(s, on, 0, ps, |ps|);
    assert RuleSize(s, on, 1, n) == Size(2 * |ps| + 1, 3);
    if 2 * |ps| + 1 <= 256 {
      TerminalsFit(s, on, ps);
      assert Fits(s, on, 1, n);
    }
    if Accepted(s, on, n) {
      var h: nat :| Fits(s, on, h, n);
      TerminalsSize(s, on, h - 1, ps, |ps|);
      forall c
        ensures Eval(PredicateOf(s, on, n), c) <==>
                  exists p :: p in ps && p < |s.prods| && s.prods[p].conjs == [Conj(false, [T(c)])]
      {
        TerminalsMean(s, on, n, c);
      }
    }
  }

  lemma TerminalsFit(s: Source, on: set<string>, ps: seq<nat>)
    requires forall k :: 0 <= k < |ps| ==> ps[k] < |s.prods| && OneTerminal(s.prods[ps[k]])
    ensures forall k :: 0 <= k < |ps| ==> ProdFits(s, on, 0, s.prods[ps[k]].conjs)
  {
    forall k | 0 <= k < |ps| ensures ProdFits(s, on, 0, s.prods[ps[k]].conjs) {
      assert !s.prods[ps[k]].conjs[0].neg;
    }
  }

  lemma TerminalsMean(s: Source, on: set<string>, n: nat, c: int)
    requires Ordinary(s, n) && Accepted(s, on, n)
    requires forall k :: 0 <= k < |Prods(s, on, n)| ==> OneTerminal(s.prods[Prods(s, on, n)[k]])
    ensures Eval(PredicateOf(s, on, n), c) <==>
              exists p :: p in Prods(s, on, n) && p < |s.prods| && s.prods[p].conjs == [Conj(false, [T(c)])]
  {
    var ps := Prods(s, on, n);
    var h: nat :| Spec(s, on, h, n).Some? && PredicateOf(s, on, n) == Spec(s, on, h, n).value.e;
    AltsMeaning(s, on, h - 1, ps, 0, [], GuardsOf(s, ps), c);
    assert !Eval(AnyOf([]), c);
    forall k | 0 <= k < |ps|
      ensures ProdAccepts(s, on, h - 1, s.prods[ps[k]], c) <==> s.prods[ps[k]].conjs == [Conj(false, [T(c)])]
    {
      TerminalAccepts(s, on, h - 1, s.prods[ps[k]], c);
    }
  }

  lemma TerminalAccepts(s: Source, on: set<string>, h: nat, p: BProd, c: int)
    requires OneTerminal(p)
    ensures ProdAccepts(s, on, h, p, c) <==> p.conjs == [Conj(false, [T(c)])]
  {
    var l := p.conjs[0].body[0];
    assert p.conjs[0].body == [l] && p.conjs == [Conj(false, [l])];
    assert SpecLit(s, on, h, l) == Some(Verdict(Eq(l.c), {}));
    assert LitAccepts(s, on, h, l, c) <==> l.c == c;
  }

  // ---- the guards an accepted rule reads

  /** An enabled production of `n` stands under guard `g`. */
  ghost predicate GuardedBy(s: Source, on: set<string>, n: nat, g: string) {
    exists p :: 0 <= p < |s.prods| && s.prods[p].head == n && Enabled(s, on, p) && p in s.guards && s.guards[p] == g
  }

  /** So does one of a rule that `n` uses, in at most `h` steps. */
  ghost predicate ReadsGuard(s: Source, on: set<string>, h: nat, n: nat, g: string)
    decreases h
  {
    n !in s.base && (GuardedBy(s, on, n, g)
        || (h > 0 && exists b :: Uses(s, on, n, b) && ReadsGuard(s, on, h - 1, b, g)))
  }

  lemma {:induction false} ConjsGuards(s: Source, on: set<string>, h: nat, conjs: seq<Conj>, j: nat, r: ConjsSoFar,
          g: string)
    requires j <= |conjs| && SpecConjs(s, on, h, conjs, j, r).Some?
    ensures g in SpecConjs(s, on, h, conjs, j, r).value.guards <==>
              g in r.guards || exists k :: j <= k < |conjs| && LitReads(s, on, h, conjs[k], g)
    decreases |conjs| - j
  {
    if j < |conjs| {
      var v := SpecLit(s, on, h, conjs[j].body[0]).value;
      ConjsGuards(s, on, h, conjs, j + 1, Conjoin(r, conjs[j].neg, v), g);
      assert g in v.guards <==> LitReads(s, on, h, conjs[j], g);
    }
  }

  ghost predicate LitReads(s: Source, on: set<string>, h: nat, c: Conj, g: string) {
    |c.body| == 1 && SpecLit(s, on, h, c.body[0]).Some? && g in SpecLit(s, on, h, c.body[0]).value.guards
  }

  lemma {:induction false} AltsGuards(s: Source, on: set<string>, h: nat, ps: seq<nat>, i: nat, alts: seq<Expr>,
          gs: set<string>, g: string)
    requires i <= |ps| && forall k :: 0 <= k < |ps| ==> ps[k] < |s.prods|
    requires SpecAlts(s, on, h, ps, i, alts, gs).Some?
    ensures g in SpecAlts(s, on, h, ps, i, alts, gs).value.guards <==>
              g in gs || exists k :: i <= k < |ps| && ProdReads(s, on, h, s.prods[ps[k]], g)
    decreases |ps| - i
  {
    hide LitReads;
    if i < |ps| {
      var start := ConjsSoFar([], false, gs);
      var r := SpecConjs(s, on, h, s.prods[ps[i]].conjs, 0, start).value;
      ConjsGuards(s, on, h, s.prods[ps[i]].conjs, 0, start, g);
      AltsGuards(s, on, h, ps, i + 1, alts + [AllOf(r.subs)], r.guards, g);
    }
  }

  ghost predicate ProdReads(s: Source, on: set<string>, h: nat, p: BProd, g: string) {
    exists j :: 0 <= j < |p.conjs| && LitReads(s, on, h, p.conjs[j], g)
  }

  /** The guards kept with an accepted rule are exactly those on the productions of the rules it reads. */
  lemma {:induction false} GuardsExactly(s: Source, on: set<string>, h: nat, n: nat, g: string)
    requires Spec(s, on, h, n).Some?
    ensures g in Spec(s, on, h, n).value.guards <==> ReadsGuard(s, on, h, n, g)
    decreases h
  {
    if n !in s.base {
      var ps := Prods(s, on, n);
      AltsGuards(s, on, h - 1, ps, 0, [], GuardsOf(s, ps), g);
      OwnGuards(s, on, n, g);
      UsedGuards(s, on, h, n, g);
    }
  }

  lemma OwnGuards(s: Source, on: set<string>, n: nat, g: string)
    ensures g in GuardsOf(s, Prods(s, on, n)) <==> GuardedBy(s, on, n, g)
  {
    var ps := Prods(s, on, n);
    if GuardedBy(s, on, n, g) {
      var p :| 0 <= p < |s.prods| && s.prods[p].head == n && Enabled(s, on, p) && p in s.guards && s.guards[p] == g;
      var k :| 0 <= k < |ps| && ps[k] == p;
    }
  }

  lemma {:induction false} UsedGuards(s: Source, on: set<string>, h: nat, n: nat, g: string)
    requires h > 0 && n !in s.base && Spec(s, on, h, n).Some?
    ensures (exists k :: 0 <= k < |Prods(s, on, n)| && ProdReads(s, on, h - 1, s.prods[Prods(s, on, n)[k]], g)) <==>
              exists b :: Uses(s, on, n, b) && ReadsGuard(s, on, h - 1, b, g)
    decreases h, 0
  {
    hide Spec, ReadsGuard, ProdReads, Uses;
    var ps := Prods(s, on, n);
    if k :| 0 <= k < |ps| && ProdReads(s, on, h - 1, s.prods[ps[k]], g) {
      var b := ReadIsUsed(s, on, h, n, k, g);
      GuardsExactly(s, on, h - 1, b, g);
    }
    if b :| Uses(s, on, n, b) && ReadsGuard(s, on, h - 1, b, g) {
      UsedIsLower(s, on, h, n, b);
      GuardsExactly(s, on, h - 1, b, g);
      UsedIsRead(s, on, h, n, b, g);
    }
  }

  lemma ReadIsUsed(s: Source, on: set<string>, h: nat, n: nat, k: nat, g: string) returns (b: nat)
    requires h > 0 && k < |Prods(s, on, n)| && ProdReads(s, on, h - 1, s.prods[Prods(s, on, n)[k]], g)
    ensures Uses(s, on, n, b) && Spec(s, on, h - 1, b).Some? && g in Spec(s, on, h - 1, b).value.guards
  {
    hide Spec;
    var conjs := s.prods[Prods(s, on, n)[k]].conjs;
    var j :| 0 <= j < |conjs| && LitReads(s, on, h - 1, conjs[j], g);
    b := conjs[j].body[0].n;
    assert conjs[j].body == [NT(b)];
  }

  lemma UsedIsRead(s: Source, on: set<string>, h: nat, n: nat, b: nat, g: string)
    requires h > 0 && Uses(s, on, n, b) && Spec(s, on, h - 1, b).Some? && g in Spec(s, on, h - 1, b).value.guards
    ensures exists k :: 0 <= k < |Prods(s, on, n)| && ProdReads(s, on, h - 1, s.prods[Prods(s, on, n)[k]], g)
  {
    hide Spec;
    var ps := Prods(s, on, n);
    var p, j :| 0 <= p < |s.prods| && s.prods[p].head == n && Enabled(s, on, p)
                && 0 <= j < |s.prods[p].conjs| && s.prods[p].conjs[j].body == [NT(b)];
    assert LitReads(s, on, h - 1, s.prods[p].conjs[j], g);
    var k :| 0 <= k < |ps| && ps[k] == p;
    assert ProdReads(s, on, h - 1, s.prods[ps[k]], g);
  }
}
