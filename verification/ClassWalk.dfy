/** The analysis as it runs: a depth-first walk that marks rules open, accepted or rejected, and what it
    leaves behind, whatever had been walked before. */
module ClassWalk {
  import opened Options
  import opened Grammars
  import opened CharClasses

  datatype Mark = Open | Accept | Reject

  /** Every nonterminal the productions mention. */
  function Mentioned(s: Source): set<nat> {
    (set p | 0 <= p < |s.prods| :: s.prods[p].head)
    + (set p, j, k | 0 <= p < |s.prods| && 0 <= j < |s.prods[p].conjs| && 0 <= k < |s.prods[p].conjs[j].body|
                     && s.prods[p].conjs[j].body[k].NT? :: s.prods[p].conjs[j].body[k].n)
  }

  predicate InSource(s: Source, ps: seq<nat>) {
    forall k :: 0 <= k < |ps| ==> ps[k] < |s.prods|
  }

  /** `ps` are enabled productions of `n`. */
  ghost predicate Alternates(s: Source, on: set<string>, n: nat, ps: seq<nat>) {
    forall k :: 0 <= k < |ps| ==> ps[k] < |s.prods| && s.prods[ps[k]].head == n && Enabled(s, on, ps[k])
  }

  /** The rest of the reference computation, from conjunct `j` of alternative `i`. */
  function SpecFrom(s: Source, on: set<string>, h: nat, ps: seq<nat>, i: nat, alts: seq<Expr>, j: nat,
          r: ConjsSoFar): Option<Verdict>
    requires i < |ps| && InSource(s, ps) && j <= |s.prods[ps[i]].conjs|
  {
    match SpecConjs(s, on, h, s.prods[ps[i]].conjs, j, r)
    case None => None
    case Some(r') =>
      var alts' := alts + [AllOf(r'.subs)];
      if !r'.positive || TooLarge(AnyOf(alts')) then None else SpecAlts(s, on, h, ps, i + 1, alts', r'.guards)
  }

  /** From some bound on, rule `n` comes to what is left from alternative `i`. */
  ghost predicate ContinuesAt(s: Source, on: set<string>, n: nat, h0: nat, ps: seq<nat>, i: nat, alts: seq<Expr>,
          gs: set<string>)
    requires i <= |ps| && InSource(s, ps)
  {
    forall h: nat :: h > h0 ==> Spec(s, on, h, n) == SpecAlts(s, on, h - 1, ps, i, alts, gs)
  }

  ghost predicate ContinuesFrom(s: Source, on: set<string>, n: nat, h0: nat, ps: seq<nat>, i: nat, alts: seq<Expr>,
          j: nat, r: ConjsSoFar)
    requires i < |ps| && InSource(s, ps) && j <= |s.prods[ps[i]].conjs|
  {
    forall h: nat :: h > h0 ==> Spec(s, on, h, n) == SpecFrom(s, on, h - 1, ps, i, alts, j, r)
  }

  /** A rule that fails from some bound on is never accepted. */
  lemma FailsForGood(s: Source, on: set<string>, n: nat, h0: nat)
    requires forall h: nat :: h > h0 ==> Spec(s, on, h, n).None?
    ensures !Accepted(s, on, n)
  {
    if Accepted(s, on, n) {
      var h: nat :| Spec(s, on, h, n).Some?;
      SpecTaller(s, on, h, h + h0 + 1, n);
    }
  }

  ghost predicate HasVerdict(s: Source, on: set<string>, n: nat, v: Verdict) {
    exists h: nat :: Spec(s, on, h, n) == Some(v)
  }

  /** The next conjunct's literal is known: from a larger bound on, the computation moves past it. */
  lemma NextConj(s: Source, on: set<string>, n: nat, h0: nat, ps: seq<nat>, i: nat, alts: seq<Expr>, j: nat,
          r: ConjsSoFar, v: Verdict) returns (h1: nat)
    requires i < |ps| && InSource(s, ps) && j < |s.prods[ps[i]].conjs|
    requires ContinuesFrom(s, on, n, h0, ps, i, alts, j, r)
    requires var c := s.prods[ps[i]].conjs[j];
             && |c.body| == 1
             && match c.body[0] {
                  case Null => false
                  case T(a) => !IsSentinel(a) && v == Verdict(Eq(a), {})
                  case NT(b) => HasVerdict(s, on, b, v)
                }
    ensures ContinuesFrom(s, on, n, h1, ps, i, alts, j + 1, Conjoin(r, s.prods[ps[i]].conjs[j].neg, v))
  {
    var c := s.prods[ps[i]].conjs[j];
    h1 := h0;
    if c.body[0].NT? {
      var hb: nat :| Spec(s, on, hb, c.body[0].n) == Some(v);
      h1 := h0 + hb;
      forall h: nat | h >= h1 ensures Spec(s, on, h, c.body[0].n) == Some(v) {
        SpecTaller(s, on, hb, h, c.body[0].n);
      }
    }
    forall h: nat | h > h1
      ensures Spec(s, on, h, n) == SpecFrom(s, on, h - 1, ps, i, alts, j + 1, Conjoin(r, c.neg, v))
    {
      assert SpecLit(s, on, h - 1, c.body[0]) == Some(v);
    }
  }

  /** What the analysis of a literal came to. */
  ghost predicate LitResult(s: Source, on: set<string>, l: Lit, v: Option<Verdict>) {
    match l
    case Null => v == None
    case T(c) => v == if IsSentinel(c) then None else Some(Verdict(Eq(c), {}))
    case NT(b) => (v.Some? <==> Accepted(s, on, b)) && (v.Some? ==> HasVerdict(s, on, b, v.value))
  }

  lemma ConjStep(s: Source, on: set<string>, n: nat, h0: nat, ps: seq<nat>, i: nat, alts: seq<Expr>, j: nat,
          r: ConjsSoFar, v: Option<Verdict>) returns (h1: nat)
    requires i < |ps| && InSource(s, ps) && j < |s.prods[ps[i]].conjs|
    requires ContinuesFrom(s, on, n, h0, ps, i, alts, j, r)
    requires |s.prods[ps[i]].conjs[j].body| == 1 && LitResult(s, on, s.prods[ps[i]].conjs[j].body[0], v)
    ensures v.None? ==> !Accepted(s, on, n)
    ensures v.Some? ==> ContinuesFrom(s, on, n, h1, ps, i, alts, j + 1,
            Conjoin(r, s.prods[ps[i]].conjs[j].neg, v.value))
  {
    hide ContinuesFrom, Accepted, HasVerdict;
    h1 := h0;
    if v.None? {
      NoConj(s, on, n, h0, ps, i, alts, j, r);
    } else {
      h1 := NextConj(s, on, n, h0, ps, i, alts, j, r, v.value);
    }
  }

  lemma NoConj(s: Source, on: set<string>, n: nat, h0: nat, ps: seq<nat>, i: nat, alts: seq<Expr>, j: nat,
          r: ConjsSoFar)
    requires i < |ps| && InSource(s, ps) && j < |s.prods[ps[i]].conjs|
    requires ContinuesFrom(s, on, n, h0, ps, i, alts, j, r)
    requires var c := s.prods[ps[i]].conjs[j];
             || |c.body| != 1 || c.body[0].Null? || (c.body[0].T? && IsSentinel(c.body[0].c))
             || (c.body[0].NT? && !Accepted(s, on, c.body[0].n))
    ensures !Accepted(s, on, n)
  {
    forall h: nat | h > h0 ensures Spec(s, on, h, n).None? {
      assert |s.prods[ps[i]].conjs[j].body| == 1 ==> SpecLit(s, on, h - 1, s.prods[ps[i]].conjs[j].body[0]).None?;
    }
    FailsForGood(s, on, n, h0);
  }

  lemma NextAlt(s: Source, on: set<string>, n: nat, h0: nat, ps: seq<nat>, i: nat, alts: seq<Expr>, r: ConjsSoFar)
    requires i < |ps| && InSource(s, ps)
    requires ContinuesFrom(s, on, n, h0, ps, i, alts, |s.prods[ps[i]].conjs|, r)
    ensures var alts' := alts + [AllOf(r.subs)];
            if !r.positive || TooLarge(AnyOf(alts')) then !Accepted(s, on, n)
            else ContinuesAt(s, on, n, h0, ps, i + 1, alts', r.guards)
  {
    if !r.positive || TooLarge(AnyOf(alts + [AllOf(r.subs)])) {
      FailsForGood(s, on, n, h0);
    }
  }

  lemma AltsDone(s: Source, on: set<string>, n: nat, h0: nat, ps: seq<nat>, alts: seq<Expr>, gs: set<string>)
    requires InSource(s, ps)
    requires ContinuesAt(s, on, n, h0, ps, |ps|, alts, gs)
    ensures HasVerdict(s, on, n, Verdict(AnyOf(alts), gs))
  {
    assert Spec(s, on, h0 + 1, n) == Some(Verdict(AnyOf(alts), gs));
  }

  /** An open rule met again closes a cycle through the path that leads back to it. */
  lemma OpenIsCycle(s: Source, on: set<string>, path: seq<nat>, n: nat)
    requires Chain(s, on, path) && n in path && Uses(s, on, path[|path| - 1], n)
    ensures !Accepted(s, on, n)
  {
    var i :| 0 <= i < |path| && path[i] == n;
    var cycle := path[i..] + [n];
    forall k | 0 <= k < |cycle| - 1 ensures Uses(s, on, cycle[k], cycle[k + 1]) {
      if k < |cycle| - 2 {
        assert Uses(s, on, path[i + k], path[i + k + 1]);
      }
    }
    CycleIsRejected(s, on, cycle);
  }

  lemma UsesLiteral(s: Source, on: set<string>, n: nat, p: nat, j: nat)
    requires p < |s.prods| && s.prods[p].head == n && Enabled(s, on, p) && j < |s.prods[p].conjs|
    requires |s.prods[p].conjs[j].body| == 1 && s.prods[p].conjs[j].body[0].NT?
    ensures Uses(s, on, n, s.prods[p].conjs[j].body[0].n) && s.prods[p].conjs[j].body[0].n in Mentioned(s)
  {
    assert s.prods[p].conjs[j].body == [NT(s.prods[p].conjs[j].body[0].n)];
  }

  // ---- what the walk has recorded, as a value

  datatype View = View(mark: map<nat, Mark>, expr: map<nat, Expr>, guards: map<nat, set<string>>)

  /** Accepted marks carry their verdict, rejected marks are right, and open marks are on the path. */
  ghost predicate WalkOK(s: Source, on: set<string>, v: View, path: seq<nat>) {
    && Chain(s, on, path) && (forall n :: n in path ==> n in v.mark && !v.mark[n].Accept?)
    && (forall n :: n in v.mark && v.mark[n].Open? ==> n in path)
    && (forall n :: n in v.mark && v.mark[n].Reject? ==> !Accepted(s, on, n))
    && (forall n :: n in v.mark && v.mark[n].Accept? ==>
          n !in s.base && n in v.expr && n in v.guards && HasVerdict(s, on, n, Verdict(v.expr[n], v.guards[n])))
    && (forall n :: n in v.guards || n in v.expr ==> n in v.mark && v.mark[n].Accept?)
  }

  /** No decided rule is decided again; an open rule may have been rejected. */
  ghost predicate Keeps(v: View, v': View) {
    && (forall n :: n in v.mark ==>
        n in v'.mark && (v.mark[n] == v'.mark[n] || (v.mark[n].Open? && v'.mark[n].Reject?)))
    && (forall n :: n in v.expr ==> n in v'.expr && v'.expr[n] == v.expr[n])
    && (forall n :: n in v.guards ==> n in v'.guards && v'.guards[n] == v.guards[n])
  }

  lemma KeepsItself(v: View)
    ensures Keeps(v, v)
  {
  }

  lemma KeepsTransitive(a: View, b: View, c: View)
    requires Keeps(a, b) && Keeps(b, c)
    ensures Keeps(a, c)
  {
  }

  /** Keeping marks keeps the measure of what is left to mark. */
  lemma KeepsMeasure(s: Source, v: View, v': View)
    requires Keeps(v, v')
    ensures |Mentioned(s) - v'.mark.Keys| <= |Mentioned(s) - v.mark.Keys|
  {
    Bigger(Mentioned(s) - v'.mark.Keys, Mentioned(s) - v.mark.Keys);
  }

  lemma RejectOK(s: Source, on: set<string>, v: View, path: seq<nat>, n: nat)
    requires WalkOK(s, on, v, path) && !Accepted(s, on, n)
    ensures var v' := v.(mark := v.mark[n := Reject]); WalkOK(s, on, v', path) && Keeps(v, v')
  {
    if n in v.mark && v.mark[n].Accept? {
      VerdictAccepts(s, on, n, Verdict(v.expr[n], v.guards[n]));
    }
  }

  lemma ChainGrows(s: Source, on: set<string>, path: seq<nat>, n: nat)
    requires Chain(s, on, path) && n !in s.base && (path != [] ==> Uses(s, on, path[|path| - 1], n))
    ensures Chain(s, on, path + [n])
  {
    hide Uses;
    var p := path + [n];
    forall i | 0 <= i < |p| - 1 ensures Uses(s, on, p[i], p[i + 1]) {
      if i < |path| - 1 {
        assert Uses(s, on, path[i], path[i + 1]);
      }
    }
  }

  lemma OpenOK(s: Source, on: set<string>, v: View, path: seq<nat>, n: nat)
    requires WalkOK(s, on, v, path) && n !in v.mark && n !in s.base
    requires path != [] ==> Uses(s, on, path[|path| - 1], n)
    ensures var v' := v.(mark := v.mark[n := Open]); WalkOK(s, on, v', path + [n]) && Keeps(v, v') && n !in path
  {
    hide Uses, Accepted, HasVerdict, Chain;
    ChainPart(s, on, v, path);
    ChainGrows(s, on, path, n);
  }

  lemma OpenMeasure(s: Source, v: View, n: nat)
    requires n !in v.mark && n in Mentioned(s)
    ensures |Mentioned(s) - v.mark[n := Open].Keys| < |Mentioned(s) - v.mark.Keys|
  {
    assert Mentioned(s) - v.mark.Keys == (Mentioned(s) - v.mark[n := Open].Keys) + {n};
  }

  lemma ChainPart(s: Source, on: set<string>, v: View, path: seq<nat>)
    requires WalkOK(s, on, v, path)
    ensures Chain(s, on, path) && forall n :: n in path ==> n in v.mark
  {
  }

  lemma CloseRejected(s: Source, on: set<string>, v: View, path: seq<nat>, n: nat)
    requires WalkOK(s, on, v, path + [n]) && n in v.mark && v.mark[n].Reject?
    ensures WalkOK(s, on, v, path)
  {
    hide Uses, Accepted, HasVerdict;
    assert forall k :: 0 <= k < |path| ==> (path + [n])[k] == path[k];
    forall i | 0 <= i < |path| - 1 ensures Uses(s, on, path[i], path[i + 1]) {
      assert Uses(s, on, (path + [n])[i], (path + [n])[i + 1]);
    }
  }

  lemma CloseAccepted(s: Source, on: set<string>, v0: View, v: View, path: seq<nat>, n: nat, e: Expr, gs: set<string>)
    requires WalkOK(s, on, v, path + [n]) && n !in path && HasVerdict(s, on, n, Verdict(e, gs))
    requires Keeps(v0, v) && n !in v0.mark
    ensures var v' := View(v.mark[n := Accept], v.expr[n := e], v.guards[n := gs]);
            WalkOK(s, on, v', path) && Keeps(v0, v')
  {
    hide Uses, Accepted, HasVerdict;
    assert n in path + [n];
    assert n !in v.expr && n !in v.guards;
    assert forall k :: 0 <= k < |path| ==> (path + [n])[k] == path[k];
    forall i | 0 <= i < |path| - 1 ensures Uses(s, on, path[i], path[i + 1]) {
      assert Uses(s, on, (path + [n])[i], (path + [n])[i + 1]);
    }
  }

  /** A mark that is already there decides the rule: an open one is a cycle. */
  lemma MarkMeans(s: Source, on: set<string>, v: View, path: seq<nat>, n: nat)
    requires WalkOK(s, on, v, path) && n in v.mark && (path != [] ==> Uses(s, on, path[|path| - 1], n))
    ensures v.mark[n].Accept? ==> && n in v.expr && n in v.guards && Accepted(s, on, n)
                                  && HasVerdict(s, on, n, Verdict(v.expr[n], v.guards[n]))
    ensures !v.mark[n].Accept? ==> !Accepted(s, on, n)
  {
    hide Uses, Accepted, HasVerdict;
    match v.mark[n]
    case Open => OpenIsCycle(s, on, path, n);
    case Accept => VerdictAccepts(s, on, n, Verdict(v.expr[n], v.guards[n]));
    case Reject =>
  }

  /** The walk has decided `n`: its mark says whether it is accepted; a predefined class needs no mark. */
  ghost predicate Decided(s: Source, on: set<string>, v: View, n: nat) {
    if n in v.mark then !v.mark[n].Open? && (v.mark[n].Accept? <==> Accepted(s, on, n))
    else n in s.base && Accepted(s, on, n)
  }

  lemma DecidedNow(s: Source, on: set<string>, v: View, n: nat)
    requires WalkOK(s, on, v, []) && (n in v.mark || (n in s.base && Accepted(s, on, n)))
    ensures Decided(s, on, v, n)
  {
    hide Accepted, HasVerdict;
    if n in v.mark && v.mark[n].Accept? {
      VerdictAccepts(s, on, n, Verdict(v.expr[n], v.guards[n]));
    }
  }

  lemma DecidedStays(s: Source, on: set<string>, v: View, v': View)
    requires Keeps(v, v') && WalkOK(s, on, v', [])
    ensures forall n :: Decided(s, on, v, n) ==> Decided(s, on, v', n)
  {
    hide Accepted, HasVerdict;
    forall n | Decided(s, on, v, n) ensures Decided(s, on, v', n) {
      DecidedNow(s, on, v', n);
    }
  }

  lemma HeadMentioned(s: Source, p: nat)
    requires p < |s.prods|
    ensures s.prods[p].head in Mentioned(s)
  {
  }

  lemma NotMarked(s: Source, on: set<string>, v: View, path: seq<nat>, n: nat)
    requires WalkOK(s, on, v, path) && n !in v.mark
    ensures n !in v.guards && n !in path
  {
  }

  lemma AltsStart(s: Source, on: set<string>, n: nat, ps: seq<nat>)
    requires ps == Prods(s, on, n) && ps != [] && n !in s.excluded && n !in s.base
    requires n != s.start && n !in s.nullables && n !in s.dynamic
    ensures Alternates(s, on, n, ps) && InSource(s, ps)
    ensures ContinuesAt(s, on, n, 0, ps, 0, [], GuardsOf(s, ps))
  {
  }

  lemma ConjsStart(s: Source, on: set<string>, n: nat, h0: nat, ps: seq<nat>, i: nat, alts: seq<Expr>, gs: set<string>)
    requires i < |ps| && InSource(s, ps)
    requires ContinuesAt(s, on, n, h0, ps, i, alts, gs)
    ensures ContinuesFrom(s, on, n, h0, ps, i, alts, 0, ConjsSoFar([], false, gs))
  {
  }

  lemma NeverAccepted(s: Source, on: set<string>, n: nat)
    requires n in s.excluded || (n !in s.base
             && (n == s.start || n in s.nullables || n in s.dynamic || Prods(s, on, n) == []))
    ensures !Accepted(s, on, n)
  {
  }

  lemma BaseVerdict(s: Source, on: set<string>, n: nat)
    requires n in s.base && n !in s.excluded
    ensures if n in s.eof then !Accepted(s, on, n)
            else Accepted(s, on, n) && HasVerdict(s, on, n, Verdict(Fn(s.base[n]), {}))
  {
    if n !in s.eof {
      assert Spec(s, on, 0, n) == Some(Verdict(Fn(s.base[n]), {}));
    }
  }

  lemma VerdictAccepts(s: Source, on: set<string>, n: nat, v: Verdict)
    requires HasVerdict(s, on, n, v)
    ensures Accepted(s, on, n)
  {
  }

  class Walk {
    const s: Source
    const on: set<string>
    var mark: map<nat, Mark>
    var expr: map<nat, Expr>
    var guards: map<nat, set<string>>

    ghost function Now(): View
      reads this
    {
      View(mark, expr, guards)
    }

    ghost predicate Valid(path: seq<nat>)
      reads this
    {
      WalkOK(s, on, Now(), path)
    }

    constructor (src: Source, enabled: set<string>)
      ensures s == src && on == enabled && mark == map[] && Valid([])
    {
      s, on := src, enabled;
      mark, expr, guards := map[], map[], map[];
    }

    /** Marks `n` rejected. */
    method RejectRule(n: nat, ghost path: seq<nat>) returns (r: Option<Expr>)
      requires Valid(path) && !Accepted(s, on, n)
      modifies `mark
      ensures Valid(path) && r == None && Keeps(old(Now()), Now()) && n in mark && mark[n].Reject?
    {
      hide WalkOK, Keeps, Accepted;
      RejectOK(s, on, Now(), path, n);
      mark := mark[n := Reject];
      return None;
    }

    /** The predicate of a rule that matches exactly one character, or `None`. Each rule is analysed once;
        a rule met while it is open is on a cycle. */
    method SingleCharRule(n: nat, ghost path: seq<nat>) returns (r: Option<Expr>)
      requires Valid(path) && n in Mentioned(s) && (path != [] ==> Uses(s, on, path[|path| - 1], n))
      modifies this
      ensures Valid(path) && Keeps(old(Now()), Now())
      ensures r.Some? <==> Accepted(s, on, n)
      ensures r.Some? ==> HasVerdict(s, on, n, Verdict(r.value, if n in guards then guards[n] else {}))
      ensures n in mark || (n in s.base && Accepted(s, on, n))
      decreases |Mentioned(s) - mark.Keys|, 0
    {
      hide Accepted, HasVerdict, Uses, Mentioned, WalkOK, Keeps;
      ghost var v0 := Now();
      KeepsItself(v0);
      if n in mark {
        MarkMeans(s, on, v0, path, n);
        if mark[n].Reject? {
          return None;
        }
        if mark[n].Open? {
          r := RejectRule(n, path);
          return;
        }
        return Some(expr[n]);
      }
      NotMarked(s, on, v0, path, n);
      if n in s.excluded {
        NeverAccepted(s, on, n);
        r := RejectRule(n, path);
        return;
      }
      if n in s.base {
        BaseVerdict(s, on, n);
        if n in s.eof {
          r := RejectRule(n, path);
          return;
        }
        return Some(Fn(s.base[n]));
      }
      OpenOK(s, on, v0, path, n);
      OpenMeasure(s, v0, n);
      mark := mark[n := Open];
      ghost var v1 := Now();
      var ps := Prods(s, on, n);
      if n == s.start || n in s.nullables || n in s.dynamic || ps == [] {
        NeverAccepted(s, on, n);
        r := RejectRule(n, path + [n]);
        KeepsTransitive(v0, v1, Now());
        CloseRejected(s, on, Now(), path, n);
        return;
      }
      r := Alternatives(n, ps, path, v0);
    }

    /** Works through the enabled productions of an open rule. */
    method Alternatives(n: nat, ps: seq<nat>, ghost path: seq<nat>, ghost v0: View) returns (r: Option<Expr>)
      requires Valid(path + [n]) && n !in path && n in mark && n in Mentioned(s)
      requires Keeps(v0, Now()) && n !in v0.mark
      requires ps == Prods(s, on, n) && ps != [] && n !in s.excluded && n !in s.base
      requires n != s.start && n !in s.nullables && n !in s.dynamic
      modifies this
      ensures Valid(path) && Keeps(v0, Now()) && n in mark
      ensures r.Some? <==> Accepted(s, on, n)
      ensures r.Some? ==> n in guards && HasVerdict(s, on, n, Verdict(r.value, guards[n]))
      decreases |Mentioned(s) - mark.Keys|, 4
    {
      hide Accepted, HasVerdict, Uses, Mentioned, WalkOK, Keeps, ContinuesAt, ContinuesFrom, TooLarge, Prods,
          Alternates;
      ghost var here := path + [n];
      var alts: seq<Expr>, gs, i := [], GuardsOf(s, ps), 0;
      ghost var h0 := 0;
      AltsStart(s, on, n, ps);
      while i < |ps|
        invariant 0 <= i <= |ps| && Valid(here) && Keeps(v0, Now()) && n in mark
        invariant ContinuesAt(s, on, n, h0, ps, i, alts, gs)
        invariant |Mentioned(s) - mark.Keys| <= |Mentioned(s) - old(mark).Keys|
      {
        ghost var v1 := Now();
        var c;
        c, h0 := Conjuncts(n, ps, i, alts, gs, here, h0);
        KeepsTransitive(v0, v1, Now());
        KeepsMeasure(s, v1, Now());
        ChainPart(s, on, Now(), here);
        if c.None? {
          r := RejectAt(n, path, v0);
          return;
        }
        NextAlt(s, on, n, h0, ps, i, alts, c.value);
        if !c.value.positive {
          r := RejectAt(n, path, v0);
          return;
        }
        alts := alts + [AllOf(c.value.subs)];
        if TooLarge(AnyOf(alts)) {
          r := RejectAt(n, path, v0);
          return;
        }
        gs := c.value.guards;
        i := i + 1;
      }
      AltsDone(s, on, n, h0, ps, alts, gs);
      VerdictAccepts(s, on, n, Verdict(AnyOf(alts), gs));
      CloseAccepted(s, on, v0, Now(), path, n, AnyOf(alts), gs);
      mark := mark[n := Accept];
      expr := expr[n := AnyOf(alts)];
      guards := guards[n := gs];
      r := Some(AnyOf(alts));
    }

    method RejectAt(n: nat, ghost path: seq<nat>, ghost v0: View) returns (r: Option<Expr>)
      requires Valid(path + [n]) && Keeps(v0, Now()) && !Accepted(s, on, n)
      modifies `mark
      ensures Valid(path) && r == None && Keeps(v0, Now()) && n in mark
    {
      hide Accepted, WalkOK, Keeps;
      ghost var v1 := Now();
      r := RejectRule(n, path + [n]);
      KeepsTransitive(v0, v1, Now());
      CloseRejected(s, on, Now(), path, n);
    }

    /** The predicates of the conjuncts of one production, and the guards they add. */
    method Conjuncts(n: nat, ps: seq<nat>, i: nat, alts: seq<Expr>, gs: set<string>, ghost path: seq<nat>,
            ghost h0: nat)
      returns (c: Option<ConjsSoFar>, ghost h1: nat)
      requires Valid(path) && path != [] && path[|path| - 1] == n
      requires i < |ps| && Alternates(s, on, n, ps) && InSource(s, ps)
      requires ContinuesAt(s, on, n, h0, ps, i, alts, gs)
      modifies this
      ensures Valid(path) && Keeps(old(Now()), Now())
      ensures c.None? ==> !Accepted(s, on, n)
      ensures c.Some? ==> ContinuesFrom(s, on, n, h1, ps, i, alts, |s.prods[ps[i]].conjs|, c.value)
      decreases |Mentioned(s) - mark.Keys|, 3
    {
      hide Accepted, HasVerdict, Uses, Mentioned, WalkOK, Keeps, ContinuesAt, ContinuesFrom, Alternates;
      var conjs := s.prods[ps[i]].conjs;
      var sofar, j := ConjsSoFar([], false, gs), 0;
      h1 := h0;
      ConjsStart(s, on, n, h0, ps, i, alts, gs);
      ghost var v0 := Now();
      KeepsItself(v0);
      while j < |conjs|
        invariant 0 <= j <= |conjs| && Valid(path) && Keeps(v0, Now())
        invariant ContinuesFrom(s, on, n, h1, ps, i, alts, j, sofar)
        invariant |Mentioned(s) - mark.Keys| <= |Mentioned(s) - old(mark).Keys|
      {
        ghost var v1 := Now();
        var r;
        r, h1 := Conjunct(n, ps, i, alts, j, sofar, path, h1);
        KeepsTransitive(v0, v1, Now());
        KeepsMeasure(s, v1, Now());
        if r.None? {
          return None, h1;
        }
        sofar := r.value;
        j := j + 1;
      }
      c := Some(sofar);
    }

    /** One conjunct: a single literal, possibly negated. */
    method Conjunct(n: nat, ps: seq<nat>, i: nat, alts: seq<Expr>, j: nat, sofar: ConjsSoFar, ghost path: seq<nat>,
            ghost h0: nat)
      returns (c: Option<ConjsSoFar>, ghost h1: nat)
      requires Valid(path) && path != [] && path[|path| - 1] == n
      requires i < |ps| && Alternates(s, on, n, ps) && InSource(s, ps)
      requires j < |s.prods[ps[i]].conjs| && ContinuesFrom(s, on, n, h0, ps, i, alts, j, sofar)
      modifies this
      ensures Valid(path) && Keeps(old(Now()), Now())
      ensures c.None? ==> !Accepted(s, on, n)
      ensures c.Some? ==> ContinuesFrom(s, on, n, h1, ps, i, alts, j + 1, c.value)
      decreases |Mentioned(s) - mark.Keys|, 2
    {
      hide Accepted, HasVerdict, Uses, Mentioned, WalkOK, Keeps, ContinuesFrom, LitResult, Enabled, Conjoin;
      var conj := s.prods[ps[i]].conjs[j];
      KeepsItself(Now());
      if |conj.body| != 1 {
        NoConj(s, on, n, h0, ps, i, alts, j, sofar);
        return None, h0;
      }
      if conj.body[0].NT? {
        UsesLiteral(s, on, n, ps[i], j);
      }
      var v := Literal(conj.body[0], path);
      h1 := ConjStep(s, on, n, h0, ps, i, alts, j, sofar, v);
      c := if v.None? then None else Some(Conjoin(sofar, conj.neg, v.value));
    }

    /** The predicate of one literal of a rule on the path. */
    method Literal(l: Lit, ghost path: seq<nat>) returns (v: Option<Verdict>)
      requires Valid(path) && path != []
      requires l.NT? ==> Uses(s, on, path[|path| - 1], l.n) && l.n in Mentioned(s)
      modifies this
      ensures Valid(path) && Keeps(old(Now()), Now())
      ensures LitResult(s, on, l, v)
      decreases |Mentioned(s) - mark.Keys|, 1
    {
      hide Accepted, HasVerdict, Uses, Mentioned, WalkOK, Keeps;
      KeepsItself(Now());
      match l
      case Null => v := None;
      case T(c) => v := if IsSentinel(c) then None else Some(Verdict(Eq(c), {}));
      case NT(b) =>
        var e := SingleCharRule(b, path);
        v := if e.None? then None else Some(Verdict(e.value, if b in guards then guards[b] else {}));
    }

    /** Walks the rule of every source production. */
    method WalkAll()
      requires Valid([])
      modifies this
      ensures Valid([]) && forall p :: 0 <= p < |s.prods| ==> Decided(s, on, Now(), s.prods[p].head)
    {
      hide Accepted, Mentioned, WalkOK, Keeps;
      var p := 0;
      while p < |s.prods|
        invariant 0 <= p <= |s.prods| && Valid([])
        invariant forall q :: 0 <= q < p ==> Decided(s, on, Now(), s.prods[q].head)
      {
        ghost var v := Now();
        HeadMentioned(s, p);
        var _ := SingleCharRule(s.prods[p].head, []);
        DecidedStays(s, on, v, Now());
        DecidedNow(s, on, Now(), s.prods[p].head);
        p := p + 1;
      }
    }
  }
}
