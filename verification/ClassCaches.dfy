/** The accept caches of the derived classes, kept apart per guard state. */
module ClassCaches {
  import opened Options
  import opened Grammars
  import opened CharClasses
  import opened ClassWalk

  // ---- the stored guard set determines the predicate

  lemma {:induction false} ConjsGuardsGrow(s: Source, on: set<string>, h: nat, conjs: seq<Conj>, j: nat, r: ConjsSoFar)
    requires j <= |conjs| && SpecConjs(s, on, h, conjs, j, r).Some?
    ensures r.guards <= SpecConjs(s, on, h, conjs, j, r).value.guards
    decreases |conjs| - j
  {
    if j < |conjs| {
      ConjsGuardsGrow(s, on, h, conjs, j + 1, Conjoin(r, conjs[j].neg, SpecLit(s, on, h, conjs[j].body[0]).value));
    }
  }

  lemma {:induction false} AltsGuardsGrow(s: Source, on: set<string>, h: nat, ps: seq<nat>, i: nat, alts: seq<Expr>,
          gs: set<string>)
    requires i <= |ps| && (forall k :: 0 <= k < |ps| ==> ps[k] < |s.prods|) && SpecAlts(s, on, h, ps, i, alts, gs).Some?
    ensures gs <= SpecAlts(s, on, h, ps, i, alts, gs).value.guards
    decreases |ps| - i
  {
    if i < |ps| {
      var start := ConjsSoFar([], false, gs);
      var c := SpecConjs(s, on, h, s.prods[ps[i]].conjs, 0, start);
      ConjsGuardsGrow(s, on, h, s.prods[ps[i]].conjs, 0, start);
      AltsGuardsGrow(s, on, h, ps, i + 1, alts + [AllOf(c.value.subs)], c.value.guards);
    }
  }

  /** Only guards that are on are recorded. */
  lemma {:induction false} GuardsAreOn(s: Source, on: set<string>, h: nat, n: nat)
    requires Spec(s, on, h, n).Some?
    ensures Spec(s, on, h, n).value.guards <= on
    decreases h, 0
  {
    if n !in s.base {
      var ps := Prods(s, on, n);
      AltsGuardsAreOn(s, on, h - 1, ps, 0, [], GuardsOf(s, ps));
    }
  }

  lemma {:induction false} AltsGuardsAreOn(s: Source, on: set<string>, h: nat, ps: seq<nat>, i: nat, alts: seq<Expr>,
          gs: set<string>)
    requires i <= |ps| && (forall k :: 0 <= k < |ps| ==> ps[k] < |s.prods|) && SpecAlts(s, on, h, ps, i, alts, gs).Some?
    requires gs <= on
    ensures SpecAlts(s, on, h, ps, i, alts, gs).value.guards <= on
    decreases h, 2, |ps| - i
  {
    if i < |ps| {
      var start := ConjsSoFar([], false, gs);
      var c := SpecConjs(s, on, h, s.prods[ps[i]].conjs, 0, start);
      ConjsGuardsAreOn(s, on, h, s.prods[ps[i]].conjs, 0, start);
      AltsGuardsAreOn(s, on, h, ps, i + 1, alts + [AllOf(c.value.subs)], c.value.guards);
    }
  }

  lemma {:induction false} ConjsGuardsAreOn(s: Source, on: set<string>, h: nat, conjs: seq<Conj>, j: nat, r: ConjsSoFar)
    requires j <= |conjs| && SpecConjs(s, on, h, conjs, j, r).Some? && r.guards <= on
    ensures SpecConjs(s, on, h, conjs, j, r).value.guards <= on
    decreases h, 1, |conjs| - j
  {
    if j < |conjs| {
      var l := conjs[j].body[0];
      if l.NT? {
        GuardsAreOn(s, on, h, l.n);
      }
      ConjsGuardsAreOn(s, on, h, conjs, j + 1, Conjoin(r, conjs[j].neg, SpecLit(s, on, h, l).value));
    }
  }

  lemma {:induction false} SameProds(s: Source, a: set<string>, b: set<string>, n: nat, p: nat)
    requires p <= |s.prods|
    requires forall q :: p <= q < |s.prods| && s.prods[q].head == n ==> (Enabled(s, a, q) <==> Enabled(s, b, q))
    ensures ProdsFrom(s, a, n, p) == ProdsFrom(s, b, n, p)
    decreases |s.prods| - p
  {
    if p < |s.prods| {
      SameProds(s, a, b, n, p + 1);
    }
  }

  lemma EnabledStays(s: Source, a: set<string>, b: set<string>, n: nat)
    requires GuardsOf(s, Prods(s, a, n)) <= b
    ensures forall q :: 0 <= q < |s.prods| && s.prods[q].head == n && Enabled(s, a, q) ==> Enabled(s, b, q)
  {
    var ps := Prods(s, a, n);
    forall q | 0 <= q < |s.prods| && s.prods[q].head == n && Enabled(s, a, q) && q in s.guards
      ensures s.guards[q] in b
    {
      var k :| 0 <= k < |ps| && ps[k] == q;
      assert s.guards[ps[k]] in GuardsOf(s, ps);
    }
  }

  /** Two guard states that read only guards the other has on give a rule the same verdict. */
  lemma {:induction false} SameSpec(s: Source, a: set<string>, b: set<string>, h: nat, n: nat)
    requires Spec(s, a, h, n).Some? && Spec(s, b, h, n).Some?
    requires Spec(s, a, h, n).value.guards <= b && Spec(s, b, h, n).value.guards <= a
    ensures Spec(s, a, h, n) == Spec(s, b, h, n)
    decreases h, 0
  {
    hide ProdsFrom, GuardsOf, SpecAlts, Enabled;
    if n !in s.base {
      var ps, qs := Prods(s, a, n), Prods(s, b, n);
      AltsGuardsGrow(s, a, h - 1, ps, 0, [], GuardsOf(s, ps));
      AltsGuardsGrow(s, b, h - 1, qs, 0, [], GuardsOf(s, qs));
      EnabledStays(s, a, b, n);
      EnabledStays(s, b, a, n);
      SameProds(s, a, b, n, 0);
      SameAlts(s, a, b, h - 1, ps, 0, [], GuardsOf(s, ps));
    }
  }

  lemma {:induction false} SameAlts(s: Source, a: set<string>, b: set<string>, h: nat, ps: seq<nat>, i: nat,
          alts: seq<Expr>, gs: set<string>)
    requires i <= |ps| && (forall k :: 0 <= k < |ps| ==> ps[k] < |s.prods|)
    requires SpecAlts(s, a, h, ps, i, alts, gs).Some? && SpecAlts(s, b, h, ps, i, alts, gs).Some?
    requires SpecAlts(s, a, h, ps, i, alts, gs).value.guards <= b
    requires SpecAlts(s, b, h, ps, i, alts, gs).value.guards <= a
    ensures SpecAlts(s, a, h, ps, i, alts, gs) == SpecAlts(s, b, h, ps, i, alts, gs)
    decreases h, 2, |ps| - i
  {
    if i < |ps| {
      var conjs, start := s.prods[ps[i]].conjs, ConjsSoFar([], false, gs);
      var c, d := SpecConjs(s, a, h, conjs, 0, start).value, SpecConjs(s, b, h, conjs, 0, start).value;
      AltsGuardsGrow(s, a, h, ps, i + 1, alts + [AllOf(c.subs)], c.guards);
      AltsGuardsGrow(s, b, h, ps, i + 1, alts + [AllOf(d.subs)], d.guards);
      SameConjs(s, a, b, h, conjs, 0, start);
      SameAlts(s, a, b, h, ps, i + 1, alts + [AllOf(c.subs)], c.guards);
    }
  }

  lemma {:induction false} SameConjs(s: Source, a: set<string>, b: set<string>, h: nat, conjs: seq<Conj>, j: nat,
          r: ConjsSoFar)
    requires j <= |conjs| && SpecConjs(s, a, h, conjs, j, r).Some? && SpecConjs(s, b, h, conjs, j, r).Some?
    requires SpecConjs(s, a, h, conjs, j, r).value.guards <= b && SpecConjs(s, b, h, conjs, j, r).value.guards <= a
    ensures SpecConjs(s, a, h, conjs, j, r) == SpecConjs(s, b, h, conjs, j, r)
    decreases h, 1, |conjs| - j
  {
    if j < |conjs| {
      var l := conjs[j].body[0];
      var u, v := SpecLit(s, a, h, l).value, SpecLit(s, b, h, l).value;
      ConjsGuardsGrow(s, a, h, conjs, j + 1, Conjoin(r, conjs[j].neg, u));
      ConjsGuardsGrow(s, b, h, conjs, j + 1, Conjoin(r, conjs[j].neg, v));
      if l.NT? {
        SameSpec(s, a, b, h, l.n);
      }
      SameConjs(s, a, b, h, conjs, j + 1, Conjoin(r, conjs[j].neg, u));
    }
  }

  /** The guard set stored with a predicate determines the predicate, whatever else is on. */
  lemma GuardsDeterminePredicate(s: Source, a: set<string>, b: set<string>, n: nat, u: Verdict, v: Verdict)
    requires HasVerdict(s, a, n, u) && HasVerdict(s, b, n, v) && u.guards == v.guards
    ensures u == v
  {
    var h :| Spec(s, a, h, n) == Some(u);
    var k :| Spec(s, b, k, n) == Some(v);
    var m := if h > k then h else k;
    SpecTaller(s, a, h, m, n);
    SpecTaller(s, b, k, m, n);
    GuardsAreOn(s, a, m, n);
    GuardsAreOn(s, b, m, n);
    SameSpec(s, a, b, m, n);
  }

  // ---- the caches, as a value

  /** `extra` holds the `class => character` productions made after the source ones; `made` finds the one of a
      derived class; `saved` keeps the accept cache of a class per guard set; `ps` is the active cache. */
  datatype Caches = Caches(extra: seq<(nat, int)>, made: map<(nat, int), nat>,
                           saved: map<(nat, set<string>), map<int, nat>>, ps: map<nat, map<int, nat>>,
                           fns: map<nat, Expr>, active: map<nat, set<string>>)

  predicate IsProd(s: Source, c: Caches, p: nat, n: nat, ch: int) {
    |s.prods| <= p < |s.prods| + |c.extra| && c.extra[p - |s.prods|] == (n, ch)
  }

  /** Every entry of a cache is the one production of its class and character. */
  ghost predicate EntriesOK(c: Caches, n: nat, cache: map<int, nat>) {
    forall ch :: ch in cache ==> (n, ch) in c.made && cache[ch] == c.made[(n, ch)]
  }

  /** Some guard state that reads exactly `gs` accepts `ch`. */
  ghost predicate AcceptedUnder(s: Source, n: nat, gs: set<string>, ch: int) {
    exists on, e :: HasVerdict(s, on, n, Verdict(e, gs)) && Eval(e, ch)
  }

  /** Exactly one production per class and character. */
  ghost predicate ProductionsOK(s: Source, c: Caches) {
    && (forall n, ch :: (n, ch) in c.made ==> n !in s.base && IsProd(s, c, c.made[(n, ch)], n, ch))
    && (forall i :: 0 <= i < |c.extra| ==>
          var (n, ch) := c.extra[i];
          if n in s.base then n in c.ps && ch in c.ps[n] && c.ps[n][ch] == |s.prods| + i
          else (n, ch) in c.made && c.made[(n, ch)] == |s.prods| + i)
    && (forall n, ch :: n in s.base && n in c.ps && ch in c.ps[n] ==>
        ch in s.base[n] && IsProd(s, c, c.ps[n][ch], n, ch))
  }

  ghost predicate SavedOK(s: Source, c: Caches) {
    forall n, gs :: (n, gs) in c.saved ==>
      EntriesOK(c, n, c.saved[(n, gs)]) && forall ch :: ch in c.saved[(n, gs)] ==> AcceptedUnder(s, n, gs, ch)
  }

  /** A derived class has the predicate of guard state `on`, and its active cache only what that accepts. */
  ghost predicate ActiveOK(s: Source, on: set<string>, c: Caches, n: nat) {
    && n !in s.base && n in c.fns && n in c.active && n in c.ps
    && HasVerdict(s, on, n, Verdict(c.fns[n], c.active[n]))
    && EntriesOK(c, n, c.ps[n]) && forall ch :: ch in c.ps[n] ==> Eval(c.fns[n], ch)
  }

  ghost predicate Coherent(s: Source, on: set<string>, c: Caches) {
    && ProductionsOK(s, c) && SavedOK(s, c) && c.active.Keys == c.fns.Keys
    && forall n :: n in c.fns ==> ActiveOK(s, on, c, n)
  }

  /** Saving the active cache of a class under its guards. */
  lemma SaveOK(s: Source, on: set<string>, c: Caches, n: nat)
    requires ProductionsOK(s, c) && SavedOK(s, c) && ActiveOK(s, on, c, n)
    ensures SavedOK(s, c.(saved := c.saved[(n, c.active[n]) := c.ps[n]]))
  {
    var c' := c.(saved := c.saved[(n, c.active[n]) := c.ps[n]]);
    forall m, gs | (m, gs) in c'.saved
      ensures EntriesOK(c', m, c'.saved[(m, gs)]) && forall ch :: ch in c'.saved[(m, gs)] ==>
              AcceptedUnder(s, m, gs, ch)
    {
      if (m, gs) == (n, c.active[n]) {
        assert EntriesOK(c', m, c.ps[n]);
      } else {
        assert EntriesOK(c', m, c.saved[(m, gs)]);
      }
    }
  }

  /** The saved caches concern neither the productions nor the active classes. */
  lemma SavedApart(s: Source, on: set<string>, c: Caches, saved: map<(nat, set<string>), map<int, nat>>)
    ensures ProductionsOK(s, c.(saved := saved)) <==> ProductionsOK(s, c)
    ensures forall n :: ActiveOK(s, on, c.(saved := saved), n) <==> ActiveOK(s, on, c, n)
  {
  }

  function SavedCache(c: Caches, n: nat, gs: set<string>): map<int, nat> {
    if (n, gs) in c.saved then c.saved[(n, gs)] else map[]
  }

  /** Restoring what was saved under the guards the current predicate reads: the current predicate accepts it,
      because those guards determine the predicate. */
  lemma RestoreOK(s: Source, on: set<string>, c: Caches, n: nat, e: Expr, gs: set<string>)
    requires ProductionsOK(s, c) && SavedOK(s, c) && n !in s.base && HasVerdict(s, on, n, Verdict(e, gs))
    ensures var c' := c.(fns := c.fns[n := e], active := c.active[n := gs], ps := c.ps[n := SavedCache(c, n, gs)]);
            ProductionsOK(s, c') && SavedOK(s, c') && ActiveOK(s, on, c', n)
            && forall m :: m != n && ActiveOK(s, on, c, m) ==> ActiveOK(s, on, c', m)
  {
    var c' := c.(fns := c.fns[n := e], active := c.active[n := gs], ps := c.ps[n := SavedCache(c, n, gs)]);
    assert forall p, m, ch :: IsProd(s, c, p, m, ch) ==> IsProd(s, c', p, m, ch);
    assert forall m, cache :: EntriesOK(c, m, cache) ==> EntriesOK(c', m, cache);
    forall ch | ch in SavedCache(c, n, gs) ensures Eval(e, ch) {
      var on0, e0 :| HasVerdict(s, on0, n, Verdict(e0, gs)) && Eval(e0, ch);
      GuardsDeterminePredicate(s, on, on0, n, Verdict(e, gs), Verdict(e0, gs));
    }
  }

  function WithActive(c: Caches, n: nat, ch: int, p: nat): Caches {
    c.(ps := c.ps[n := (if n in c.ps then c.ps[n] else map[])[ch := p]])
  }

  /** More productions, and nothing else new for the derived classes, keep what the caches say of them. */
  lemma ActivesKept(s: Source, on: set<string>, c: Caches, c': Caches)
    requires SavedOK(s, c) && (forall n :: n in c.fns ==> ActiveOK(s, on, c, n)) && c.active.Keys == c.fns.Keys
    requires c'.fns == c.fns && c'.active == c.active && c'.saved == c.saved
    requires forall n :: n in c.fns && n in c.ps ==> n in c'.ps && c'.ps[n] == c.ps[n]
    requires forall k :: k in c.made ==> k in c'.made && c'.made[k] == c.made[k]
    requires ProductionsOK(s, c')
    ensures Coherent(s, on, c')
  {
    hide HasVerdict, ProductionsOK;
    assert forall m, cache :: EntriesOK(c, m, cache) ==> EntriesOK(c', m, cache);
    forall m | m in c'.fns ensures ActiveOK(s, on, c', m) {
      assert ActiveOK(s, on, c, m);
    }
  }

  /** A first production for a derived class and a character. */
  lemma MakeOK(s: Source, on: set<string>, c: Caches, n: nat, ch: int)
    requires Coherent(s, on, c) && n !in s.base && (n, ch) !in c.made
    ensures var c' := c.(extra := c.extra + [(n, ch)], made := c.made[(n, ch) := |s.prods| + |c.extra|]);
            Coherent(s, on, c')
  {
    hide HasVerdict, SavedOK, ActiveOK;
    var c' := c.(extra := c.extra + [(n, ch)], made := c.made[(n, ch) := |s.prods| + |c.extra|]);
    assert forall p, m, d :: IsProd(s, c, p, m, d) ==> IsProd(s, c', p, m, d);
    assert ProductionsOK(s, c');
    ActivesKept(s, on, c, c');
  }

  lemma ActivateProductions(s: Source, c: Caches, n: nat, ch: int)
    requires ProductionsOK(s, c) && n !in s.base && (n, ch) in c.made
    ensures ProductionsOK(s, WithActive(c, n, ch, c.made[(n, ch)]))
  {
    var c' := WithActive(c, n, ch, c.made[(n, ch)]);
    assert forall p, m, d :: IsProd(s, c, p, m, d) ==> IsProd(s, c', p, m, d);
  }

  /** The production that exists goes into the active cache of a derived class. */
  lemma ActivateOK(s: Source, on: set<string>, c: Caches, n: nat, ch: int)
    requires Coherent(s, on, c) && n in c.fns && (n, ch) in c.made && Eval(c.fns[n], ch)
    ensures Coherent(s, on, WithActive(c, n, ch, c.made[(n, ch)]))
  {
    hide HasVerdict, ProductionsOK;
    var c' := WithActive(c, n, ch, c.made[(n, ch)]);
    assert ActiveOK(s, on, c, n);
    ActivateProductions(s, c, n, ch);
    assert forall m, cache :: EntriesOK(c, m, cache) ==> EntriesOK(c', m, cache);
    forall m | m in c'.fns ensures ActiveOK(s, on, c', m) {
      assert ActiveOK(s, on, c, m);
    }
  }

  /** A predefined class makes and caches its production at once. */
  lemma BaseOK(s: Source, on: set<string>, c: Caches, n: nat, ch: int)
    requires Coherent(s, on, c) && n in s.base && ch in s.base[n] && !(n in c.ps && ch in c.ps[n])
    ensures Coherent(s, on, WithActive(c.(extra := c.extra + [(n, ch)]), n, ch, |s.prods| + |c.extra|))
  {
    hide HasVerdict, SavedOK, ActiveOK;
    var c' := WithActive(c.(extra := c.extra + [(n, ch)]), n, ch, |s.prods| + |c.extra|);
    assert forall p, m, d :: IsProd(s, c, p, m, d) ==> IsProd(s, c', p, m, d);
    assert ProductionsOK(s, c');
    assert n !in c.fns by {
      NotBase(s, on, c, n);
    }
    ActivesKept(s, on, c, c');
  }

  lemma NotBase(s: Source, on: set<string>, c: Caches, n: nat)
    requires Coherent(s, on, c) && n in s.base
    ensures n !in c.fns
  {
    assert n in c.fns ==> ActiveOK(s, on, c, n);
  }

  /** What a coherent cache says of one entry. */
  lemma EntryMeans(s: Source, on: set<string>, c: Caches, n: nat, ch: int)
    requires Coherent(s, on, c) && (n in c.fns || n in s.base)
    ensures n in c.ps && ch in c.ps[n] ==>
              IsProd(s, c, c.ps[n][ch], n, ch) && (if n in s.base then ch in s.base[n] else Eval(c.fns[n], ch))
    ensures n in c.fns <==> n !in s.base
    ensures (n, ch) in c.made ==> IsProd(s, c, c.made[(n, ch)], n, ch)
  {
    hide HasVerdict;
    if n in c.fns {
      assert ActiveOK(s, on, c, n);
    }
  }

  // ---- which accepted rules are scanned as classes

  /** Some enabled production of a rule in `heads` mentions `n`. */
  predicate UsedBy(s: Source, on: set<string>, heads: set<nat>, n: nat) {
    exists p, j :: 0 <= p < |s.prods| && Enabled(s, on, p) && s.prods[p].head in heads
                   && 0 <= j < |s.prods[p].conjs| && NT(n) in s.prods[p].conjs[j].body
  }

  /** Accepted, and used by a rule that is not: only such rules become classes. */
  ghost predicate IsDerived(s: Source, on: set<string>, n: nat) {
    && n !in s.base && Accepted(s, on, n)
    && exists p, j :: 0 <= p < |s.prods| && Enabled(s, on, p) && !Accepted(s, on, s.prods[p].head)
                      && 0 <= j < |s.prods[p].conjs| && NT(n) in s.prods[p].conjs[j].body
  }

  lemma NoneDerived(s: Source, on: set<string>, c: Caches)
    requires ProductionsOK(s, c) && SavedOK(s, c)
    ensures Coherent(s, on, c.(fns := map[], active := map[]))
  {
  }

  lemma AcceptMeans(s: Source, on: set<string>, v: View, n: nat)
    requires WalkOK(s, on, v, []) && n in v.mark && v.mark[n].Accept?
    ensures n !in s.base && n in v.expr && n in v.guards && HasVerdict(s, on, n, Verdict(v.expr[n], v.guards[n]))
  {
  }

  lemma RestrictOK(s: Source, on: set<string>, c: Caches, c': Caches, derived: set<nat>)
    requires ProductionsOK(s, c) && SavedOK(s, c) && derived <= c.fns.Keys && derived <= c.active.Keys
    requires forall n :: n in derived ==> ActiveOK(s, on, c, n)
    requires c' == c.(fns := map n | n in derived :: c.fns[n], active := map n | n in derived :: c.active[n])
    ensures Coherent(s, on, c')
  {
    hide HasVerdict;
    forall n | n in c'.fns ensures ActiveOK(s, on, c', n) {
      assert ActiveOK(s, on, c, n);
    }
  }

  lemma AcceptedHasProduction(s: Source, on: set<string>, n: nat)
    requires Accepted(s, on, n) && n !in s.base
    ensures exists p :: 0 <= p < |s.prods| && s.prods[p].head == n
  {
    var h: nat :| Spec(s, on, h, n).Some?;
    var ps := Prods(s, on, n);
    assert s.prods[ps[0]].head == n;
  }

  /** After the walk, the marks tell exactly which rules become classes. */
  lemma DerivedExact(s: Source, on: set<string>, v: View, rejected: set<nat>, derived: set<nat>)
    requires WalkOK(s, on, v, []) && forall p :: 0 <= p < |s.prods| ==> Decided(s, on, v, s.prods[p].head)
    requires rejected == set n | n in v.mark && v.mark[n].Reject?
    requires forall n :: n in derived <==> n in v.mark && v.mark[n].Accept? && UsedBy(s, on, rejected, n)
    ensures forall n :: n in derived <==> IsDerived(s, on, n)
  {
    hide Accepted, HasVerdict;
    forall n ensures n in derived <==> IsDerived(s, on, n) {
      if n in derived {
        AcceptMeans(s, on, v, n);
        VerdictAccepts(s, on, n, Verdict(v.expr[n], v.guards[n]));
        var p, j :| 0 <= p < |s.prods| && Enabled(s, on, p) && s.prods[p].head in rejected
                    && 0 <= j < |s.prods[p].conjs| && NT(n) in s.prods[p].conjs[j].body;
        assert Decided(s, on, v, s.prods[p].head);
      }
      if IsDerived(s, on, n) {
        AcceptedHasProduction(s, on, n);
        var q :| 0 <= q < |s.prods| && s.prods[q].head == n;
        assert Decided(s, on, v, s.prods[q].head);
        var p, j :| 0 <= p < |s.prods| && Enabled(s, on, p) && !Accepted(s, on, s.prods[p].head)
                    && 0 <= j < |s.prods[p].conjs| && NT(n) in s.prods[p].conjs[j].body;
        assert Decided(s, on, v, s.prods[p].head);
        assert s.prods[p].head in rejected;
      }
    }
  }

  class ClassCache {
    const s: Source
    var on: set<string>                                  // enabled guards
    var derive: bool                                     // whether classes are derived at all
    var extra: seq<(nat, int)>
    var made: map<(nat, int), nat>
    var saved: map<(nat, set<string>), map<int, nat>>
    var ps: map<nat, map<int, nat>>
    var fns: map<nat, Expr>
    var active: map<nat, set<string>>

    ghost function Now(): Caches
      reads this
    {
      Caches(extra, made, saved, ps, fns, active)
    }

    /** The caches fit the guard state, and the derived classes are exactly the ones that should be. */
    ghost predicate Valid()
      reads this
    {
      Coherent(s, on, Now()) && forall n :: n in fns <==> derive && IsDerived(s, on, n)
    }

    /** The production of a class and a character, made on first use; -1 when the class rejects it. */
    method GetClassProduction(n: nat, ch: int) returns (p: int)
      requires Valid() && (n in fns || n in s.base)
      modifies `extra, `made, `ps
      ensures Valid()
      ensures p != -1 <==> if n in s.base then ch in s.base[n] else Eval(fns[n], ch)
      ensures p != -1 ==> p >= 0 && IsProd(s, Now(), p, n, ch) && n in ps && ch in ps[n] && ps[n][ch] == p
      ensures old(extra) <= extra
    {
      hide Coherent, IsDerived;
      EntryMeans(s, on, Now(), n, ch);
      if n in ps && ch in ps[n] {
        return ps[n][ch];
      }
      if !(if n in s.base then ch in s.base[n] else Eval(fns[n], ch)) {
        return -1;
      }
      p := AddClassProduction(n, ch);
    }

    /** Makes the production unless a guard state before this one already did. */
    method AddClassProduction(n: nat, ch: int) returns (p: nat)
      requires Valid() && (n in fns || n in s.base) && !(n in ps && ch in ps[n])
      requires if n in s.base then ch in s.base[n] else Eval(fns[n], ch)
      modifies `extra, `made, `ps
      ensures Valid()
      ensures IsProd(s, Now(), p, n, ch) && n in ps && ch in ps[n] && ps[n][ch] == p
      ensures old(extra) <= extra
    {
      hide Coherent, IsDerived, Eval, IsProd;
      ghost var c := Now();
      EntryMeans(s, on, c, n, ch);
      if n in fns {
        p := Make(n, ch);
        ActivateOK(s, on, Now(), n, ch);
      } else {
        BaseOK(s, on, c, n, ch);
        p := |s.prods| + |extra|;
        extra := extra + [(n, ch)];
      }
      ps := ps[n := (if n in ps then ps[n] else map[])[ch := p]];
      EntryMeans(s, on, Now(), n, ch);
    }

    /** The one production of a derived class and a character, shared by every guard state. */
    method Make(n: nat, ch: int) returns (p: nat)
      requires Coherent(s, on, Now()) && n !in s.base
      modifies `extra, `made
      ensures Coherent(s, on, Now()) && (n, ch) in made && made[(n, ch)] == p && old(extra) <= extra
    {
      hide Coherent;
      if (n, ch) in made {
        return made[(n, ch)];
      }
      MakeOK(s, on, Now(), n, ch);
      p := |s.prods| + |extra|;
      extra := extra + [(n, ch)];
      made := made[(n, ch) := p];
    }

    constructor (src: Source, derived: bool)
      ensures Valid() && s == src && on == {} && derive == derived && extra == []
    {
      s, on, derive := src, {}, derived;
      extra, made, saved, ps, fns, active := [], map[], map[], map[], map[], map[];
      new;
      Apply({});
    }

    /** Sets the enabled guards and applies the classes to them. */
    method SetEnabledProductions(guards: set<string>)
      requires Valid()
      modifies this
      ensures Valid() && on == guards && derive == old(derive)
      ensures extra == old(extra)
    {
      hide IsDerived, Coherent;
      ghost var before := on;
      on := guards;
      Apply(before);
    }

    /** Turns the derived classes on or off and applies that. */
    method DeriveCharClasses(derived: bool)
      requires Valid()
      modifies this
      ensures Valid() && on == old(on) && derive == derived
      ensures extra == old(extra)
    {
      hide IsDerived, Coherent;
      derive := derived;
      Apply(on);
    }

    /** Saves the active cache of every derived class under the guards it belongs to. */
    method SaveActive(ghost before: set<string>)
      requires Coherent(s, before, Now())
      modifies `saved
      ensures ProductionsOK(s, Now()) && SavedOK(s, Now())
    {
      hide IsProd, HasVerdict, EntriesOK, Eval, AcceptedUnder, SavedOK, ProductionsOK;
      var todo := fns.Keys;
      while todo != {}
        invariant todo <= fns.Keys && SavedOK(s, Now()) && ProductionsOK(s, Now())
        invariant forall n :: n in fns ==> ActiveOK(s, before, Now(), n)
        invariant active.Keys == fns.Keys && fns.Keys <= ps.Keys
        decreases todo
      {
        var n :| n in todo;
        SaveOK(s, before, Now(), n);
        SavedApart(s, before, Now(), saved[(n, active[n]) := ps[n]]);
        saved := saved[(n, active[n]) := ps[n]];
        todo := todo - {n};
      }
    }

    /** Gives class `n` its predicate and the cache saved under the guards the predicate reads. */
    method Adopt(n: nat, e: Expr, gs: set<string>)
      requires ProductionsOK(s, Now()) && SavedOK(s, Now()) && n !in s.base && HasVerdict(s, on, n, Verdict(e, gs))
      modifies `ps, `fns, `active
      ensures ProductionsOK(s, Now()) && SavedOK(s, Now()) && ActiveOK(s, on, Now(), n)
      ensures fns == old(fns)[n := e] && active == old(active)[n := gs]
      ensures forall m :: m != n && ActiveOK(s, on, old(Now()), m) ==> ActiveOK(s, on, Now(), m)
    {
      hide ProductionsOK, SavedOK, ActiveOK, HasVerdict;
      RestoreOK(s, on, Now(), n, e, gs);
      var cache := if (n, gs) in saved then saved[(n, gs)] else map[];
      fns, active, ps := fns[n := e], active[n := gs], ps[n := cache];
    }

    /** Saves the active caches, walks every rule of the source, and makes a class of each rule that should be
        one, with the cache that was saved under the guards its predicate reads. */
    method Apply(ghost before: set<string>)
      requires Coherent(s, before, Now())
      modifies `ps, `fns, `active, `saved
      ensures Valid()
    {
      hide Coherent, IsProd, HasVerdict, EntriesOK, Eval, AcceptedUnder, SavedOK, ProductionsOK, Accepted, ActiveOK,
        WalkOK, UsedBy, IsDerived, Decided;
      SaveActive(before);
      if !derive {
        NoneDerived(s, on, Now());
        fns, active := map[], map[];
        return;
      }
      var w := new Walk(s, on);
      w.WalkAll();
      ghost var v := w.Now();
      var rejected := set n | n in w.mark && w.mark[n].Reject?;
      var derived: set<nat> := {};
      var todo := w.mark.Keys;
      while todo != {}
        invariant todo <= w.mark.Keys && derived <= fns.Keys && derived <= active.Keys
        invariant w.Now() == v && w.s == s && w.on == on
        invariant ProductionsOK(s, Now()) && SavedOK(s, Now())
        invariant forall n :: n in derived ==> ActiveOK(s, on, Now(), n)
        invariant forall n :: n in derived <==>
                  n in w.mark && n !in todo && w.mark[n].Accept? && UsedBy(s, on, rejected, n)
        decreases todo
      {
        var n :| n in todo;
        if w.mark[n].Accept? && UsedBy(s, on, rejected, n) {
          AcceptMeans(s, on, v, n);
          Adopt(n, w.expr[n], w.guards[n]);
          derived := derived + {n};
        }
        todo := todo - {n};
      }
      ghost var c := Now();
      fns := map n | n in derived :: fns[n];
      active := map n | n in derived :: active[n];
      RestrictOK(s, on, c, Now(), derived);
      DerivedExact(s, on, v, rejected, derived);
    }
  }
}
