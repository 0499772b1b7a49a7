/** Which rules always match exactly one character, and the predicate each of them matches it with. */
module CharClasses {
  import opened Options
  import opened Grammars

  /** A single-character predicate. `Fn` copies a predefined class. */
  datatype Expr =
    | Eq(c: int)
    | Fn(accepts: set<int>)
    | Neg(e: Expr)
    | AnyOf(subs: seq<Expr>)
    | AllOf(subs: seq<Expr>)

  predicate Eval(e: Expr, c: int) {
    match e
    case Eq(d) => c == d
    case Fn(s) => c in s
    case Neg(f) => !Eval(f, c)
    case AnyOf(subs) => exists k :: 0 <= k < |subs| && Eval(subs[k], c)
    case AllOf(subs) => forall k :: 0 <= k < |subs| ==> Eval(subs[k], c)
  }

  function NodeCount(e: Expr): nat {
    match e
    case Neg(f) => 1 + NodeCount(f)
    case AnyOf(subs) => 1 + NodeCounts(subs)
    case AllOf(subs) => 1 + NodeCounts(subs)
    case _ => 1
  }

  function NodeCounts(es: seq<Expr>): nat {
    if es == [] then 0 else NodeCounts(es[..|es| - 1]) + NodeCount(es[|es| - 1])
  }

  function Depth(e: Expr): nat {
    match e
    case Neg(f) => 1 + Depth(f)
    case AnyOf(subs) => 1 + Depths(subs)
    case AllOf(subs) => 1 + Depths(subs)
    case _ => 1
  }

  function Depths(es: seq<Expr>): nat {
    if es == [] then 0
    else
      var d, rest := Depth(es[|es| - 1]), Depths(es[..|es| - 1]);
      if d > rest then d else rest
  }

  const MAX_NODES: nat := 256
  const MAX_DEPTH: nat := 64

  predicate TooLarge(e: Expr) {
    NodeCount(e) > MAX_NODES || Depth(e) > MAX_DEPTH
  }

  /** What the analysis reads: the source productions and their guards, the predefined classes (`eof` is the
      one for the end of input), and the nonterminals it must leave alone. */
  datatype Source = Source(prods: seq<BProd>, guards: map<nat, string>, start: nat, base: map<nat, set<int>>,
                           eof: set<nat>, nullables: set<nat>, dynamic: set<nat>, excluded: set<nat>)

  predicate Enabled(s: Source, on: set<string>, p: nat) {
    p in s.guards ==> s.guards[p] in on
  }

  /** The enabled productions of `n`, in production order, from `p` on. */
  function ProdsFrom(s: Source, on: set<string>, n: nat, p: nat): (ps: seq<nat>)
    requires p <= |s.prods|
    ensures forall k :: 0 <= k < |ps| ==> ps[k] < |s.prods| && s.prods[ps[k]].head == n && Enabled(s, on, ps[k])
    ensures forall q :: p <= q < |s.prods| && s.prods[q].head == n && Enabled(s, on, q) ==> q in ps
    decreases |s.prods| - p
  {
    if p == |s.prods| then []
    else if s.prods[p].head == n && Enabled(s, on, p) then [p] + ProdsFrom(s, on, n, p + 1)
    else ProdsFrom(s, on, n, p + 1)
  }

  function Prods(s: Source, on: set<string>, n: nat): (ps: seq<nat>)
    ensures forall k :: 0 <= k < |ps| ==> ps[k] < |s.prods| && s.prods[ps[k]].head == n && Enabled(s, on, ps[k])
    ensures forall q :: 0 <= q < |s.prods| && s.prods[q].head == n && Enabled(s, on, q) ==> q in ps
  {
    ProdsFrom(s, on, n, 0)
  }

  function GuardsOf(s: Source, ps: seq<nat>): set<string> {
    set k | 0 <= k < |ps| && ps[k] in s.guards :: s.guards[ps[k]]
  }

  // ---- the reference definition: plain recursion, no marks, bounded by `h`

  /** An accepted rule's predicate and the guards of the productions it reads. */
  datatype Verdict = Verdict(e: Expr, guards: set<string>)

  datatype ConjsSoFar = ConjsSoFar(subs: seq<Expr>, positive: bool, guards: set<string>)

  function Wrap(neg: bool, e: Expr): Expr {
    if neg then Neg(e) else e
  }

  function Spec(s: Source, on: set<string>, h: nat, n: nat): Option<Verdict>
    decreases h, 0
  {
    if n in s.excluded then None
    else if n in s.base then (if n in s.eof then None else Some(Verdict(Fn(s.base[n]), {})))
    else if n == s.start || n in s.nullables || n in s.dynamic || h == 0 then None
    else
      var ps := Prods(s, on, n);
      if ps == [] then None else SpecAlts(s, on, h - 1, ps, 0, [], GuardsOf(s, ps))
  }

  function SpecAlts(s: Source, on: set<string>, h: nat, ps: seq<nat>, i: nat, alts: seq<Expr>,
          gs: set<string>): Option<Verdict>
    requires i <= |ps| && forall k :: 0 <= k < |ps| ==> ps[k] < |s.prods|
    decreases h, 3, |ps| - i
  {
    if i == |ps| then Some(Verdict(AnyOf(alts), gs))
    else
      match SpecConjs(s, on, h, s.prods[ps[i]].conjs, 0, ConjsSoFar([], false, gs))
      case None => None
      case Some(r) =>
        var alts' := alts + [AllOf(r.subs)];
        if !r.positive || TooLarge(AnyOf(alts')) then None else SpecAlts(s, on, h, ps, i + 1, alts', r.guards)
  }

  function SpecConjs(s: Source, on: set<string>, h: nat, conjs: seq<Conj>, j: nat, r: ConjsSoFar): Option<ConjsSoFar>
    requires j <= |conjs|
    decreases h, 2, |conjs| - j
  {
    if j == |conjs| then Some(r)
    else if |conjs[j].body| != 1 then None
    else
      match SpecLit(s, on, h, conjs[j].body[0])
      case None => None
      case Some(v) => SpecConjs(s, on, h, conjs, j + 1, Conjoin(r, conjs[j].neg, v))
  }

  function Conjoin(r: ConjsSoFar, neg: bool, v: Verdict): ConjsSoFar {
    ConjsSoFar(r.subs + [Wrap(neg, v.e)], r.positive || !neg, r.guards + v.guards)
  }

  function SpecLit(s: Source, on: set<string>, h: nat, l: Lit): Option<Verdict>
    decreases h, 1
  {
    match l
    case Null => None
    case T(c) => if IsSentinel(c) then None else Some(Verdict(Eq(c), {}))
    case NT(n) => Spec(s, on, h, n)
  }

  /** Some bound suffices. */
  ghost predicate Accepted(s: Source, on: set<string>, n: nat) {
    exists h :: Spec(s, on, h, n).Some?
  }

  // ---- a larger bound gives the same verdict

  lemma {:induction false} SpecTaller(s: Source, on: set<string>, h: nat, h': nat, n: nat)
    requires Spec(s, on, h, n).Some? && h <= h'
    ensures Spec(s, on, h', n) == Spec(s, on, h, n)
    decreases h, 0
  {
    if n !in s.base {
      var ps := Prods(s, on, n);
      AltsTaller(s, on, h - 1, h' - 1, ps, 0, [], GuardsOf(s, ps));
    }
  }

  lemma {:induction false} AltsTaller(s: Source, on: set<string>, h: nat, h': nat, ps: seq<nat>, i: nat,
          alts: seq<Expr>, gs: set<string>)
    requires i <= |ps| && forall k :: 0 <= k < |ps| ==> ps[k] < |s.prods|
    requires SpecAlts(s, on, h, ps, i, alts, gs).Some? && h <= h'
    ensures SpecAlts(s, on, h', ps, i, alts, gs) == SpecAlts(s, on, h, ps, i, alts, gs)
    decreases h, 3, |ps| - i
  {
    if i < |ps| {
      var c := SpecConjs(s, on, h, s.prods[ps[i]].conjs, 0, ConjsSoFar([], false, gs));
      ConjsTaller(s, on, h, h', s.prods[ps[i]].conjs, 0, ConjsSoFar([], false, gs));
      AltsTaller(s, on, h, h', ps, i + 1, alts + [AllOf(c.value.subs)], c.value.guards);
    }
  }

  lemma {:induction false} ConjsTaller(s: Source, on: set<string>, h: nat, h': nat, conjs: seq<Conj>, j: nat,
          r: ConjsSoFar)
    requires j <= |conjs| && SpecConjs(s, on, h, conjs, j, r).Some? && h <= h'
    ensures SpecConjs(s, on, h', conjs, j, r) == SpecConjs(s, on, h, conjs, j, r)
    decreases h, 2, |conjs| - j
  {
    if j < |conjs| {
      var l := conjs[j].body[0];
      if l.NT? {
        SpecTaller(s, on, h, h', l.n);
      }
      ConjsTaller(s, on, h, h', conjs, j + 1, Conjoin(r, conjs[j].neg, SpecLit(s, on, h, l).value));
    }
  }

  // ---- what an accepted rule uses is accepted with a smaller bound

  /** Some enabled production of `a` has `b` as the single literal of a conjunct. */
  ghost predicate Uses(s: Source, on: set<string>, a: nat, b: nat) {
    exists p, j :: 0 <= p < |s.prods| && s.prods[p].head == a && Enabled(s, on, p)
                   && 0 <= j < |s.prods[p].conjs| && s.prods[p].conjs[j].body == [NT(b)]
  }

  lemma {:induction false} ConjsNeed(s: Source, on: set<string>, h: nat, conjs: seq<Conj>, j: nat, r: ConjsSoFar,
          k: nat)
    requires j <= k < |conjs| && SpecConjs(s, on, h, conjs, j, r).Some?
    ensures |conjs[k].body| == 1 && SpecLit(s, on, h, conjs[k].body[0]).Some?
    decreases k - j
  {
    if j < k {
      ConjsNeed(s, on, h, conjs, j + 1, Conjoin(r, conjs[j].neg, SpecLit(s, on, h, conjs[j].body[0]).value), k);
    }
  }

  lemma {:induction false} AltsNeed(s: Source, on: set<string>, h: nat, ps: seq<nat>, i: nat, alts: seq<Expr>,
          gs: set<string>, k: nat, j: nat)
    requires i <= k < |ps| && forall m :: 0 <= m < |ps| ==> ps[m] < |s.prods|
    requires SpecAlts(s, on, h, ps, i, alts, gs).Some? && j < |s.prods[ps[k]].conjs|
    ensures var c := s.prods[ps[k]].conjs[j]; |c.body| == 1 && SpecLit(s, on, h, c.body[0]).Some?
    decreases k - i
  {
    var c := SpecConjs(s, on, h, s.prods[ps[i]].conjs, 0, ConjsSoFar([], false, gs));
    if i == k {
      ConjsNeed(s, on, h, s.prods[ps[i]].conjs, 0, ConjsSoFar([], false, gs), j);
    } else {
      AltsNeed(s, on, h, ps, i + 1, alts + [AllOf(c.value.subs)], c.value.guards, k, j);
    }
  }

  lemma UsedIsLower(s: Source, on: set<string>, h: nat, a: nat, b: nat)
    requires Spec(s, on, h, a).Some? && a !in s.base && Uses(s, on, a, b)
    ensures h > 0 && Spec(s, on, h - 1, b).Some?
  {
    var p, j :| 0 <= p < |s.prods| && s.prods[p].head == a && Enabled(s, on, p)
                && 0 <= j < |s.prods[p].conjs| && s.prods[p].conjs[j].body == [NT(b)];
    var ps := Prods(s, on, a);
    var k :| 0 <= k < |ps| && ps[k] == p;
    AltsNeed(s, on, h - 1, ps, 0, [], GuardsOf(s, ps), k, j);
  }

  /** A chain of rules, each using the next, none of them predefined. */
  ghost predicate Chain(s: Source, on: set<string>, path: seq<nat>) {
    && (forall i :: 0 <= i < |path| ==> path[i] !in s.base)
    && (forall i :: 0 <= i < |path| - 1 ==> Uses(s, on, path[i], path[i + 1]))
  }

  lemma {:induction false} ChainDescends(s: Source, on: set<string>, path: seq<nat>, h: nat)
    requires path != [] && Chain(s, on, path) && Spec(s, on, h, path[0]).Some?
    ensures |path| <= h && Spec(s, on, h - (|path| - 1), path[|path| - 1]).Some?
    decreases |path|
  {
    if |path| > 1 {
      assert Uses(s, on, path[0], path[1]);
      UsedIsLower(s, on, h, path[0], path[1]);
      forall i | 0 <= i < |path[1..]| - 1 ensures Uses(s, on, path[1..][i], path[1..][i + 1]) {
        assert Uses(s, on, path[i + 1], path[i + 2]);
      }
      ChainDescends(s, on, path[1..], h - 1);
    }
  }

  /** A rule on a cycle is never accepted. */
  lemma {:induction false} CycleIsRejected(s: Source, on: set<string>, path: seq<nat>)
    requires |path| > 1 && Chain(s, on, path) && path[0] == path[|path| - 1]
    ensures !Accepted(s, on, path[0])
  {
    if h: nat :| Spec(s, on, h, path[0]).Some? {
      NoCycleBelow(s, on, path, h);
    }
  }

  lemma {:induction false} NoCycleBelow(s: Source, on: set<string>, path: seq<nat>, h: nat)
    requires |path| > 1 && Chain(s, on, path) && path[0] == path[|path| - 1]
    ensures !Spec(s, on, h, path[0]).Some?
    decreases h
  {
    if Spec(s, on, h, path[0]).Some? {
      ChainDescends(s, on, path, h);
      NoCycleBelow(s, on, path, h - (|path| - 1));
    }
  }
}
