/** Truth maintenance for Boolean grammars: retracting a chart item takes back everything that was
    recorded as derived from it, and every completion that loses its last support. */
module Retraction {
  import opened Options
  import opened Grammars

  datatype BItem = BItem(at: nat, prod: nat, con: nat, from: nat, dot: nat)

  /** A nonterminal over a span. */
  datatype Key = Key(nt: nat, from: nat, at: nat)

  /** A waiting-list entry; the nonterminal -1 marks a tombstone. */
  datatype Entry = Entry(nt: int, it: BItem)

  const DEAD: int := -1

  ghost predicate Fits(G: seq<BProd>, x: BItem) {
    x.prod < |G| && x.con < |G[x.prod].conjs| && x.dot <= |G[x.prod].conjs[x.con].body|
  }

  predicate Completed(G: seq<BProd>, x: BItem)
    requires Fits(G, x)
  {
    x.dot == |G[x.prod].conjs[x.con].body|
  }

  function KeyOf(G: seq<BProd>, x: BItem): Key
    requires x.prod < |G|
  {
    Key(G[x.prod].head, x.from, x.at)
  }

  // ---- what is recorded, as a value

  /** The live items, the recorded edges, and the completions counted as support. */
  datatype Deps = Deps(G: seq<BProd>, live: set<BItem>, forward: map<BItem, seq<BItem>>,
                       onKey: map<Key, seq<BItem>>, counted: set<BItem>)

  function Edges<K>(m: map<K, seq<BItem>>, k: K): seq<BItem> {
    if k in m then m[k] else []
  }

  ghost predicate DepsOK(d: Deps) {
    && (forall x :: x in d.counted || x in d.live ==> Fits(d.G, x))
    && (forall x :: x in d.counted ==> Completed(d.G, x))
    && (forall x, k :: x in d.forward && 0 <= k < |d.forward[x]| ==> Fits(d.G, d.forward[x][k]))
    && (forall x, k :: x in d.onKey && 0 <= k < |d.onKey[x]| ==> Fits(d.G, d.onKey[x][k]))
  }

  function Support(d: Deps, k: Key): set<BItem>
    requires forall x :: x in d.counted ==> x.prod < |d.G|
  {
    set x | x in d.counted && KeyOf(d.G, x) == k
  }

  /** Taking `R` away leaves `k` without the support it has. */
  ghost predicate Falls(d: Deps, k: Key, R: set<BItem>)
    requires forall x :: x in d.counted ==> x.prod < |d.G|
  {
    Support(d, k) != {} && Support(d, k) <= R * d.live
  }

  /** `R` contains what was advanced from its live members, and what rests on a key all of whose support is
      live and in `R`. */
  ghost predicate Closed(d: Deps, R: set<BItem>)
    requires DepsOK(d)
  {
    && (forall x, y :: x in R && x in d.live && y in Edges(d.forward, x) ==> y in R)
    && (forall k, y :: Falls(d, k, R) && y in Edges(d.onKey, k) ==> y in R)
  }

  /** `D` is the least closed set that contains the seeds `X`. */
  ghost predicate IsClosure(d: Deps, X: set<BItem>, D: set<BItem>)
    requires DepsOK(d)
  {
    X <= D && Closed(d, D) && forall R :: Closed(d, R) && X <= R ==> D <= R
  }

  lemma ClosureIsUnique(d: Deps, X: set<BItem>, D: set<BItem>, D': set<BItem>)
    requires DepsOK(d) && IsClosure(d, X, D) && IsClosure(d, X, D')
    ensures D == D'
  {
  }

  /** `d` without `D`: its live members are gone, uncounted, and their edges and the edges of keys that lost
      their last support have been taken. */
  ghost function Remove(d: Deps, D: set<BItem>): (r: Deps)
    requires DepsOK(d)
    ensures DepsOK(r) && r.G == d.G
  {
    Deps(d.G, d.live - D, d.forward - (D * d.live),
         map k | k in d.onKey && !Falls(d, k, D) :: d.onKey[k],
         d.counted - (D * d.live))
  }

  lemma RemoveShrinks(d: Deps, D: set<BItem>)
    requires DepsOK(d)
    ensures Remove(d, D).live == d.live - D && |Remove(d, D).live| <= |d.live|
    ensures Remove(d, D).counted == d.counted - (D * d.live)
  {
    Bigger(d.live - D, d.live);
  }

  lemma SupportRemoved(d: Deps, D: set<BItem>, k: Key)
    requires DepsOK(d)
    ensures Support(Remove(d, D), k) == Support(d, k) - (D * d.live)
  {
  }

  /** A key falls to two removals iff it falls to the first, or to the second once the first is done. */
  lemma FallsTogether(d: Deps, D: set<BItem>, E: set<BItem>, k: Key)
    requires DepsOK(d)
    ensures Falls(d, k, D + E) <==> Falls(d, k, D) || Falls(Remove(d, D), k, E)
  {
    SupportRemoved(d, D, k);
    var r := Remove(d, D);
    if Falls(d, k, D + E) && !Falls(d, k, D) {
      var s :| s in Support(d, k) && s !in D * d.live;
      assert s in Support(r, k);
    }
    if Falls(r, k, E) {
      forall x | x in Support(d, k) ensures x in (D + E) * d.live {
        assert x in D * d.live || x in Support(r, k);
      }
    }
  }

  /** A set closed before a removal that it contains is closed after it. */
  lemma ClosedSurvives(d: Deps, D: set<BItem>, R: set<BItem>)
    requires DepsOK(d) && Closed(d, R) && D <= R
    ensures Closed(Remove(d, D), R)
  {
    var r := Remove(d, D);
    forall k, y | Falls(r, k, R) && y in Edges(r.onKey, k) ensures y in R {
      FallsTogether(d, D, R, k);
      assert y in Edges(d.onKey, k);
    }
  }

  /** Closures compose: close the first seeds, remove, close the rest in what is left. */
  lemma ClosureComposes(d: Deps, X: set<BItem>, D: set<BItem>, Y: set<BItem>, E: set<BItem>)
    requires DepsOK(d) && IsClosure(d, X, D) && IsClosure(Remove(d, D), Y, E)
    ensures IsClosure(d, X + Y, D + E) && Remove(Remove(d, D), E) == Remove(d, D + E)
  {
    var r := Remove(d, D);
    forall k, y | Falls(d, k, D + E) && y in Edges(d.onKey, k) ensures y in D + E {
      FallsTogether(d, D, E, k);
      if !Falls(d, k, D) {
        assert y in Edges(r.onKey, k);
      }
    }
    assert Closed(d, D + E);
    forall R | Closed(d, R) && X + Y <= R ensures D + E <= R {
      ClosedSurvives(d, D, R);
    }
    RemoveTwice(d, D, E);
  }

  lemma RemoveTwice(d: Deps, D: set<BItem>, E: set<BItem>)
    requires DepsOK(d)
    ensures Remove(Remove(d, D), E) == Remove(d, D + E)
  {
    var a, b := Remove(Remove(d, D), E), Remove(d, D + E);
    assert a.live == b.live;
    assert a.counted == b.counted;
    assert a.forward == b.forward;
    forall k | k in d.onKey ensures k in a.onKey <==> k in b.onKey {
      FallsTogether(d, D, E, k);
    }
    assert a.onKey == b.onKey;
  }

  // ---- one retraction, step by step

  /** `x` has left its set and its edges are being followed; it still counts as support. */
  ghost function Lifted(d: Deps, x: BItem): (r: Deps)
    requires DepsOK(d)
    ensures DepsOK(r)
  {
    d.(live := d.live - {x}, forward := d.forward - {x})
  }

  /** `x` no longer counts. */
  ghost function Uncounted(d: Deps, x: BItem): (r: Deps)
    requires DepsOK(d)
    ensures DepsOK(r)
  {
    d.(counted := d.counted - {x})
  }

  ghost function Taken(d: Deps, k: Key): (r: Deps)
    requires DepsOK(d)
    ensures DepsOK(r)
  {
    d.(onKey := d.onKey - {k})
  }

  lemma EmptyClosure(d: Deps)
    requires DepsOK(d)
    ensures IsClosure(d, SetOf([]), {}) && Remove(d, {}) == d
  {
    assert Remove(d, {}).onKey == d.onKey;
    assert SetOf([]) == {};
  }

  /** An item that is in no set takes nothing with it. */
  lemma AbsentClosure(d: Deps, x: BItem)
    requires DepsOK(d) && x !in d.live
    ensures IsClosure(d, {x}, {x}) && Remove(d, {x}) == d
  {
    assert {x} * d.live == {};
    assert Remove(d, {x}).onKey == d.onKey;
  }

  function SetOf(s: seq<BItem>): set<BItem> {
    set x | x in s
  }

  /** What a live item takes before its own key is looked at: itself and the closure `D` of its edges. */
  ghost predicate Step(d: Deps, x: BItem, D: set<BItem>)
    requires DepsOK(d)
  {
    x in d.live && IsClosure(Lifted(d, x), SetOf(Edges(d.forward, x)), D)
  }

  lemma LiftedSurvives(d: Deps, x: BItem, R: set<BItem>)
    requires DepsOK(d) && Closed(d, R) && x in R && x in d.live
    ensures Closed(Lifted(d, x), R) && SetOf(Edges(d.forward, x)) <= R
  {
    var l := Lifted(d, x);
    forall k, y | Falls(l, k, R) && y in Edges(l.onKey, k) ensures y in R {
      assert Support(l, k) == Support(d, k);
    }
  }

  /** Every closed set with `x` in it contains the step. */
  lemma StepIsLeast(d: Deps, x: BItem, D: set<BItem>, R: set<BItem>)
    requires DepsOK(d) && Step(d, x, D) && Closed(d, R) && x in R
    ensures D + {x} <= R
  {
    LiftedSurvives(d, x, R);
  }

  /** The step is closed, except that the key of a counted `x` may have fallen. */
  lemma StepIsClosed(d: Deps, x: BItem, D: set<BItem>)
    requires DepsOK(d) && Step(d, x, D)
    ensures forall a, b :: a in D + {x} && a in d.live && b in Edges(d.forward, a) ==> b in D + {x}
    ensures forall k, y :: Falls(d, k, D + {x}) && (x in d.counted ==> k != KeyOf(d.G, x)) && y in Edges(d.onKey, k) ==>
                             y in D + {x}
  {
    var l := Lifted(d, x);
    forall a, b | a in D + {x} && a in d.live && b in Edges(d.forward, a) ensures b in D + {x} {
      if a != x {
        assert b in Edges(l.forward, a);
      }
    }
    forall k, y | Falls(d, k, D + {x}) && (x in d.counted ==> k != KeyOf(d.G, x)) && y in Edges(d.onKey, k)
      ensures y in D + {x}
    {
      assert Support(l, k) == Support(d, k) <= D * l.live;
    }
  }

  lemma LiftedFalls(d: Deps, x: BItem, D: set<BItem>, k: Key)
    requires DepsOK(d) && x in d.live
    ensures Falls(Lifted(d, x), k, D) <==> Falls(d, k, D + {x}) && (x in d.counted ==> k != KeyOf(d.G, x))
  {
    assert Support(Lifted(d, x), k) == Support(d, k);
    if x in d.counted && k == KeyOf(d.G, x) {
      assert x in Support(d, k);
    }
  }

  /** The machine's state after following the edges of `x` and uncounting it, told as one removal. */
  lemma StepRemoves(d: Deps, x: BItem, D: set<BItem>)
    requires DepsOK(d) && x in d.live
    ensures var r := Uncounted(Remove(Lifted(d, x), D), x);
            if Falls(d, KeyOf(d.G, x), D + {x}) && x in d.counted then Remove(d, D + {x}) == Taken(r, KeyOf(d.G, x))
            else Remove(d, D + {x}) == r
  {
    var r, b := Uncounted(Remove(Lifted(d, x), D), x), Remove(d, D + {x});
    var key := KeyOf(d.G, x);
    assert r.live == b.live && r.counted == b.counted && r.forward == b.forward;
    hide Falls;
    forall k | k in d.onKey
      ensures k in r.onKey <==> k in b.onKey || (x in d.counted && k == key && Falls(d, k, D + {x}))
    {
      LiftedFalls(d, x, D, k);
    }
    if Falls(d, key, D + {x}) && x in d.counted {
      assert Taken(r, key).onKey == b.onKey;
    } else {
      assert r.onKey == b.onKey;
    }
  }

  /** The key of a counted item falls iff nothing counts for it once the item itself is uncounted. */
  lemma StepSupport(d: Deps, x: BItem, D: set<BItem>)
    requires DepsOK(d) && x in d.live && x in d.counted
    ensures Falls(d, KeyOf(d.G, x), D + {x}) <==> Support(Uncounted(Remove(Lifted(d, x), D), x), KeyOf(d.G, x)) == {}
  {
    var key := KeyOf(d.G, x);
    var r := Uncounted(Remove(Lifted(d, x), D), x);
    var sup, gone := Support(d, key), (D + {x}) * d.live;
    assert Support(r, key) == sup - gone;
    assert sup <= gone + (sup - gone);
    assert x in sup;
  }

  /** Following the edges of `x` cannot make its own key fall, nor take what rests on it. */
  lemma OwnKeyStays(d: Deps, x: BItem, D: set<BItem>)
    requires DepsOK(d) && x in d.live && x in d.counted
    ensures Edges(Remove(Lifted(d, x), D).onKey, KeyOf(d.G, x)) == Edges(d.onKey, KeyOf(d.G, x))
    ensures x in Remove(Lifted(d, x), D).counted
  {
    LiftedFalls(d, x, D, KeyOf(d.G, x));
  }

  /** A live item whose key keeps support, or that was never counted, takes its step and nothing more. */
  lemma PlainClosure(d: Deps, x: BItem, D: set<BItem>)
    requires DepsOK(d) && Step(d, x, D) && (x in d.counted ==> !Falls(d, KeyOf(d.G, x), D + {x}))
    ensures IsClosure(d, {x}, D + {x})
  {
    StepIsClosed(d, x, D);
    assert Closed(d, D + {x});
    forall R | Closed(d, R) && {x} <= R ensures D + {x} <= R {
      StepIsLeast(d, x, D, R);
    }
  }

  /** A counted item whose key falls also takes the closure `E` of what rests on the key. */
  lemma FallingClosure(d: Deps, x: BItem, D: set<BItem>, E: set<BItem>)
    requires DepsOK(d) && Step(d, x, D) && x in d.counted && Falls(d, KeyOf(d.G, x), D + {x})
    requires IsClosure(Remove(d, D + {x}), SetOf(Edges(d.onKey, KeyOf(d.G, x))), E)
    ensures IsClosure(d, {x}, D + {x} + E) && Remove(Remove(d, D + {x}), E) == Remove(d, D + {x} + E)
  {
    var A, key := D + {x}, KeyOf(d.G, x);
    var r := Remove(d, A);
    StepIsClosed(d, x, D);
    forall k, y | Falls(d, k, A + E) && y in Edges(d.onKey, k) ensures y in A + E {
      FallsTogether(d, A, E, k);
      if k == key {
        assert y in SetOf(Edges(d.onKey, key));
      } else if !Falls(d, k, A) {
        assert y in Edges(r.onKey, k);
      }
    }
    forall a, b | a in A + E && a in d.live && b in Edges(d.forward, a) ensures b in A + E {
      if a !in A {
        assert b in Edges(r.forward, a);
      }
    }
    assert Closed(d, A + E);
    forall R | Closed(d, R) && {x} <= R ensures A + E <= R {
      StepIsLeast(d, x, D, R);
      ClosedSurvives(d, A, R);
      assert Falls(d, key, R);
    }
    RemoveTwice(d, A, E);
  }

  /** What the machine does after following the edges of `x` yields the closure of `x`, whether `x` was
      counted or not and whether its key fell or not. */
  lemma WholeClosure(d: Deps, x: BItem, A: set<BItem>, E: set<BItem>, end: Deps)
    requires DepsOK(d) && Step(d, x, A)
    requires x !in d.counted ==> E == {} && end == Remove(Lifted(d, x), A)
    requires x in d.counted ==> UncountedTo(Remove(Lifted(d, x), A), x, E, end)
    ensures IsClosure(d, {x}, A + {x} + E) && end == Remove(d, A + {x} + E)
  {
    hide IsClosure, Remove;
    StepRemoves(d, x, A);
    NotCounted(d, x, A);
    if x in d.counted {
      StepSupport(d, x, A);
    }
    if x in d.counted && Falls(d, KeyOf(d.G, x), A + {x}) {
      OwnKeyStays(d, x, A);
      FallingClosure(d, x, A, E);
    } else {
      PlainClosure(d, x, A);
      assert A + {x} + E == A + {x};
    }
  }

  lemma OnlyCompletedCount(d: Deps, x: BItem)
    requires DepsOK(d)
    ensures x in d.counted ==> Fits(d.G, x) && Completed(d.G, x)
  {
  }

  lemma NotCounted(d: Deps, x: BItem, A: set<BItem>)
    requires DepsOK(d)
    ensures x in Remove(Lifted(d, x), A).counted <==> x in d.counted
    ensures x !in d.counted ==> Uncounted(Remove(Lifted(d, x), A), x) == Remove(Lifted(d, x), A)
  {
  }

  /** Uncounting `x` in `d` and, if its key fell, taking the closure `E` of what rests on it, leads to `end`. */
  ghost predicate UncountedTo(d: Deps, x: BItem, E: set<BItem>, end: Deps)
    requires DepsOK(d) && x.prod < |d.G|
  {
    var r, key := Uncounted(d, x), KeyOf(d.G, x);
    if Support(r, key) != {} then E == {} && end == r
    else IsClosure(Taken(r, key), SetOf(Edges(r.onKey, key)), E) && end == Remove(Taken(r, key), E)
  }

  // ---- the other records

  /** The number each key has on record is the number of completions counted for it. */
  ghost predicate CountsOK(d: Deps, count: map<Key, nat>)
    requires DepsOK(d)
  {
    forall k :: (if k in count then count[k] else 0) == |Support(d, k)|
  }

  function WaitedFor(G: seq<BProd>, x: BItem): Lit
    requires Fits(G, x) && !Completed(G, x)
  {
    G[x.prod].conjs[x.con].body[x.dot]
  }

  function Tombed(row: seq<Entry>, R: set<BItem>): (r: seq<Entry>)
    ensures |r| == |row|
  {
    seq(|row|, i requires 0 <= i < |row| => if row[i].it in R then row[i].(nt := DEAD) else row[i])
  }

  /** Uncounting a counted completion takes exactly one from its key. */
  lemma OneLess(d: Deps, x: BItem)
    requires DepsOK(d) && x in d.counted
    ensures forall k :: |Support(Uncounted(d, x), k)| ==
                        if k == KeyOf(d.G, x) then |Support(d, k)| - 1 else |Support(d, k)|
  {
    forall k
      ensures |Support(Uncounted(d, x), k)| == if k == KeyOf(d.G, x) then |Support(d, k)| - 1 else |Support(d, k)|
    {
      if k == KeyOf(d.G, x) {
        assert Support(d, k) == Support(Uncounted(d, x), k) + {x};
      } else {
        assert Support(d, k) == Support(Uncounted(d, x), k);
      }
    }
  }

  lemma MoreEdges(d: Deps, count: map<Key, nat>, x: BItem, key: Key, y: BItem)
    requires DepsOK(d) && CountsOK(d, count) && Fits(d.G, y)
    ensures var e := d.(onKey := d.onKey[key := Edges(d.onKey, key) + [y]]); DepsOK(e) && CountsOK(e, count)
    ensures var e := d.(onKey := d.onKey[key := Edges(d.onKey, key) + [y]],
            forward := d.forward[x := Edges(d.forward, x) + [y]]);
            DepsOK(e) && CountsOK(e, count)
  {
    var e := d.(onKey := d.onKey[key := Edges(d.onKey, key) + [y]]);
    var f := e.(forward := d.forward[x := Edges(d.forward, x) + [y]]);
    forall k ensures Support(e, k) == Support(d, k) && Support(f, k) == Support(d, k) {
    }
  }

  lemma FewerLive(d: Deps, count: map<Key, nat>, live: set<BItem>)
    requires DepsOK(d) && CountsOK(d, count) && live <= d.live
    ensures DepsOK(d.(live := live)) && CountsOK(d.(live := live), count)
  {
    forall k ensures Support(d.(live := live), k) == Support(d, k) {
    }
  }

  lemma LiftedTwice(d: Deps, x: BItem)
    requires DepsOK(d) && x in d.live
    ensures DepsOK(d.(live := d.live - {x})) && Lifted(d.(live := d.live - {x}), x) == Lifted(d, x)
    ensures |d.live - {x}| < |d.live|
  {
  }

  lemma LiftedCounts(d: Deps, x: BItem, count: map<Key, nat>)
    requires DepsOK(d) && CountsOK(d, count)
    ensures CountsOK(Lifted(d, x), count)
  {
    forall k ensures Support(Lifted(d, x), k) == Support(d, k) {
    }
  }

  /** Every live entry names what its item waits for, sits at its item's position, and is there once. */
  ghost predicate RowsOK(G: seq<BProd>, rows: seq<seq<Entry>>) {
    && (forall p, i :: 0 <= p < |rows| && 0 <= i < |rows[p]| && rows[p][i].nt != DEAD ==>
          && Fits(G, rows[p][i].it) && rows[p][i].it.at == p && !Completed(G, rows[p][i].it)
          && rows[p][i].nt >= 0 && WaitedFor(G, rows[p][i].it) == NT(rows[p][i].nt))
    && (forall p, i, j :: 0 <= p < |rows| && 0 <= i < j < |rows[p]|
                          && rows[p][i].nt != DEAD && rows[p][j].nt != DEAD ==>
          rows[p][i].it != rows[p][j].it)
  }

  /** The parked conjuncts, the retracted items per set, and the waiting lists. */
  datatype Rest = Rest(parked: set<BItem>, gone: seq<set<BItem>>, rows: seq<seq<Entry>>)

  /** `r` after the items of `D` were retracted, with `n` sets and `live` the items that were in them. */
  ghost function RestWithout(r: Rest, n: nat, D: set<BItem>, live: set<BItem>): Rest {
    Rest(r.parked - D,
         seq(n, k requires 0 <= k < n => (if k < |r.gone| then r.gone[k] else {}) + (set d | d in D && d.at == k)),
         seq(|r.rows|, p requires 0 <= p < |r.rows| => Tombed(r.rows[p], D * live)))
  }

  lemma RestNothing(r: Rest, n: nat, live: set<BItem>)
    requires |r.gone| == n
    ensures RestWithout(r, n, {}, live) == r
  {
    var b := RestWithout(r, n, {}, live);
    forall k | 0 <= k < n ensures b.gone[k] == r.gone[k] {
    }
    forall p | 0 <= p < |r.rows| ensures b.rows[p] == r.rows[p] {
    }
    assert b.rows == r.rows;
  }

  /** `gone` with one set per Earley set, and `x` in the one of its position. */
  function Marked(gone: seq<set<BItem>>, n: nat, x: BItem): seq<set<BItem>> {
    seq(n, k requires 0 <= k < n => (if k < |gone| then gone[k] else {}) + (if x.at == k then {x} else {}))
  }

  lemma MarkedLength(gone: seq<set<BItem>>, n: nat, x: BItem)
    ensures |Marked(gone, n, x)| == n
  {
  }

  lemma MarkedByUpdate(gone: seq<set<BItem>>, n: nat, x: BItem)
    requires |gone| <= n
    ensures var u := if |gone| < n then gone + seq(n - |gone|, _ => {}) else gone;
            Marked(gone, n, x) == if x.at < n then u[x.at := u[x.at] + {x}] else u
  {
    var u := if |gone| < n then gone + seq(n - |gone|, _ => {}) else gone;
    var v := if x.at < n then u[x.at := u[x.at] + {x}] else u;
    forall k | 0 <= k < n ensures v[k] == Marked(gone, n, x)[k] {
    }
    assert v == Marked(gone, n, x);
  }

  /** Retracting one item on its own: it is unparked, marked, and its waiting entry, if it was live, is dead. */
  lemma RestOfOne(r: Rest, n: nat, x: BItem, live: set<BItem>, rows: seq<seq<Entry>>)
    requires |rows| == |r.rows|
    requires forall p :: 0 <= p < |rows| ==> rows[p] == if x in live then Tombed(r.rows[p], {x}) else r.rows[p]
    ensures RestWithout(r, n, {x}, live) == Rest(r.parked - {x}, Marked(r.gone, n, x), rows)
  {
    var a := RestWithout(r, n, {x}, live);
    assert {x} * live == if x in live then {x} else {};
    forall k | 0 <= k < n ensures a.gone[k] == Marked(r.gone, n, x)[k] {
    }
    assert a.gone == Marked(r.gone, n, x);
    forall p | 0 <= p < |rows| ensures a.rows[p] == rows[p] {
    }
    assert a.rows == rows;
  }

  ghost function AllOf(S: seq<set<BItem>>): set<BItem> {
    set k, x | 0 <= k < |S| && x in S[k] :: x
  }

  lemma InAllOf(S: seq<set<BItem>>, x: BItem)
    requires forall k, y :: 0 <= k < |S| && y in S[k] ==> y.at == k
    ensures x in AllOf(S) <==> x.at < |S| && x in S[x.at]
  {
  }

  lemma AllOfLess(S: seq<set<BItem>>, x: BItem)
    requires forall k, y :: 0 <= k < |S| && y in S[k] ==> y.at == k
    requires x.at < |S| && x in S[x.at]
    ensures x in AllOf(S) && AllOf(S[x.at := S[x.at] - {x}]) == AllOf(S) - {x}
  {
    var S' := S[x.at := S[x.at] - {x}];
    forall y | y in AllOf(S) && y != x ensures y in AllOf(S') {
      assert y in S[y.at] && y in S'[y.at];
    }
    assert x in S[x.at];
    forall y | y in AllOf(S') ensures y in AllOf(S) && y != x {
      var k :| 0 <= k < |S'| && y in S'[k];
      assert y in S[k];
    }
  }

  /** A live item that waits for no nonterminal has no live entry, so erasing it erases nothing. */
  lemma NoEntry(G: seq<BProd>, rows: seq<seq<Entry>>, x: BItem)
    requires RowsOK(G, rows) && Fits(G, x) && (Completed(G, x) || !WaitedFor(G, x).NT?)
    ensures forall p :: 0 <= p < |rows| ==> rows[p] == Tombed(rows[p], {x})
  {
  }

  lemma RestTwice(r: Rest, n: nat, A: set<BItem>, B: set<BItem>, live: set<BItem>)
    requires |r.gone| <= n
    ensures RestWithout(RestWithout(r, n, A, live), n, B, live - A) == RestWithout(r, n, A + B, live)
  {
    var a, b := RestWithout(RestWithout(r, n, A, live), n, B, live - A), RestWithout(r, n, A + B, live);
    forall k | 0 <= k < n ensures a.gone[k] == b.gone[k] {
    }
    forall p | 0 <= p < |r.rows| ensures a.rows[p] == b.rows[p] {
    }
    assert a.rows == b.rows;
  }

  lemma RowsStayOK(G: seq<BProd>, r: Rest, n: nat, D: set<BItem>, live: set<BItem>)
    requires RowsOK(G, r.rows)
    ensures RowsOK(G, RestWithout(r, n, D, live).rows)
  {
  }

  /** What happens to the chart while a position is worked on. */
  datatype Op =
    | Inserted(x: BItem)
    | Parked(x: BItem)
    | Waits(x: BItem)
    | Counted(x: BItem)
    | Recorded(x: BItem, key: Key, y: BItem)
    | Refuted(x: BItem)
    | PositionDone

  ghost predicate OpOK(G: seq<BProd>, op: Op) {
    match op
    case Inserted(x) => Fits(G, x)
    case Parked(x) => Fits(G, x)
    case Waits(x) => Fits(G, x) && !Completed(G, x) && WaitedFor(G, x).NT?
    case Counted(x) => Fits(G, x) && Completed(G, x)
    case Recorded(_, _, y) => Fits(G, y)
    case Refuted(x) => Fits(G, x)
    case PositionDone => true
  }

  lemma AllOfMore(S: seq<set<BItem>>, x: BItem)
    requires x.at < |S|
    ensures AllOf(S[x.at := S[x.at] + {x}]) == AllOf(S) + {x}
  {
    var S' := S[x.at := S[x.at] + {x}];
    forall y ensures y in AllOf(S') <==> y in AllOf(S) + {x} {
      if y in AllOf(S) {
        var k :| 0 <= k < |S| && y in S[k];
        assert y in S'[k];
      }
      if y in AllOf(S') {
        var k :| 0 <= k < |S'| && y in S'[k];
        assert y in S[k] || y == x;
      }
      assert x in S'[x.at];
    }
  }

  function PaddedSets(S: seq<set<BItem>>, n: nat): (r: seq<set<BItem>>)
    ensures |r| == (if |S| < n then n else |S|) && S <= r && forall k :: |S| <= k < |r| ==> r[k] == {}
  {
    if |S| < n then S + seq(n - |S|, _ => {}) else S
  }

  lemma PaddedAllOf(S: seq<set<BItem>>, n: nat)
    ensures AllOf(PaddedSets(S, n)) == AllOf(S)
  {
    var S' := PaddedSets(S, n);
    forall y ensures y in AllOf(S') <==> y in AllOf(S) {
      if y in AllOf(S) {
        var k :| 0 <= k < |S| && y in S[k];
        assert y in S'[k];
      }
    }
  }

  /** More live items, the same counts. */
  lemma MoreLive(d: Deps, count: map<Key, nat>, x: BItem)
    requires DepsOK(d) && CountsOK(d, count) && Fits(d.G, x)
    ensures DepsOK(d.(live := d.live + {x})) && CountsOK(d.(live := d.live + {x}), count)
  {
    forall k ensures Support(d.(live := d.live + {x}), k) == Support(d, k) {
    }
  }

  function PaddedRows(rows: seq<seq<Entry>>, n: nat): (r: seq<seq<Entry>>)
    ensures |r| == (if |rows| < n then n else |rows|) && rows <= r && forall k :: |rows| <= k < |r| ==> r[k] == []
  {
    if |rows| < n then rows + seq(n - |rows|, _ => []) else rows
  }

  /** The waiting lists with `e` in the one of position `p`, at the end unless it is there already. */
  function WithEntry(rows: seq<seq<Entry>>, p: nat, e: Entry): seq<seq<Entry>> {
    var r := PaddedRows(rows, p + 1);
    if e in r[p] then r else r[p := r[p] + [e]]
  }

  // ---- what each operation does, and what whole runs do

  /** A chart as a value: what is recorded, what is parked, retracted and awaited, and the number of its sets. */
  datatype Snap = Snap(d: Deps, rest: Rest, n: nat)

  /** `x` was retracted from its set. */
  ghost predicate Gone(a: Snap, x: BItem) {
    x.at < |a.rest.gone| && x in a.rest.gone[x.at]
  }

  /** Retracting `x` takes `y`. */
  ghost predicate Takes(d: Deps, x: BItem, y: BItem)
    requires DepsOK(d)
  {
    exists D :: IsClosure(d, {x}, D) && y in D
  }

  ghost predicate Refutes(a: Snap, x: BItem, D: set<BItem>, b: Snap)
    requires DepsOK(a.d)
  {
    && IsClosure(a.d, {x}, D)
    && b == Snap(Remove(a.d, D), RestWithout(a.rest, a.n, D, a.d.live), a.n)
  }

  ghost predicate Steps(a: Snap, op: Op, b: Snap)
    requires DepsOK(a.d) && OpOK(a.d.G, op)
  {
    match op
    case Inserted(x) =>
      if Gone(a, x) || x in a.d.live then b == a
      else b == Snap(a.d.(live := a.d.live + {x}), a.rest, if x.at < a.n then a.n else x.at + 1)
    case Parked(x) => b == a.(rest := a.rest.(parked := a.rest.parked + {x}))
    case Waits(x) =>
      b == a.(rest := a.rest.(rows := WithEntry(a.rest.rows, x.at, Entry(WaitedFor(a.d.G, x).n, x))))
    case Counted(x) => b == a.(d := a.d.(counted := a.d.counted + {x}))
    case Recorded(x, key, y) =>
      b == a.(d := a.d.(onKey := a.d.onKey[key := Edges(a.d.onKey, key) + [y]],
              forward := if x.at == key.at then a.d.forward[x := Edges(a.d.forward, x) + [y]] else a.d.forward))
    case Refuted(x) => exists D :: Refutes(a, x, D, b)
    case PositionDone => b == a.(d := a.d.(forward := map[], onKey := map[], counted := {}))
  }

  ghost predicate SnapOK(a: Snap) {
    DepsOK(a.d) && |a.rest.gone| <= a.n && forall x :: x in a.d.live ==> x.at < a.n
  }

  /** The charts of a run: the one it starts from, and one after each operation. */
  ghost predicate IsRun(ops: seq<Op>, run: seq<Snap>) {
    && |run| == |ops| + 1 && (forall k :: 0 <= k < |run| ==> SnapOK(run[k]))
    && forall k :: 0 <= k < |ops| ==> OpOK(run[k].d.G, ops[k]) && Steps(run[k], ops[k], run[k + 1])
  }

  /** No item is in its set once it was retracted from it. */
  ghost predicate Apart(a: Snap) {
    forall x :: x in a.d.live ==> !Gone(a, x)
  }

  /** One operation of a run, told of single items. */
  lemma StepOnItem(a: Snap, op: Op, b: Snap, y: BItem)
    requires SnapOK(a) && OpOK(a.d.G, op) && Steps(a, op, b)
    ensures y in b.d.live <==> (y in a.d.live || (op == Inserted(y) && !Gone(a, y)))
                               && !(op.Refuted? && Takes(a.d, op.x, y))
    ensures Gone(b, y) <==> Gone(a, y) || (op.Refuted? && y.at < a.n && Takes(a.d, op.x, y))
  {
    hide IsClosure, DepsOK;
    if op.Refuted? {
      var D :| Refutes(a, op.x, D, b);
      TakenIsClosure(a.d, op.x, D, y);
    }
  }

  lemma TakenIsClosure(d: Deps, x: BItem, D: set<BItem>, y: BItem)
    requires DepsOK(d) && IsClosure(d, {x}, D)
    ensures Takes(d, x, y) <==> y in D
  {
    hide IsClosure, DepsOK;
    if Takes(d, x, y) {
      var E :| IsClosure(d, {x}, E) && y in E;
      ClosureIsUnique(d, {x}, D, E);
    }
  }

  lemma StepKeepsApart(a: Snap, op: Op, b: Snap)
    requires SnapOK(a) && OpOK(a.d.G, op) && Steps(a, op, b) && Apart(a)
    ensures Apart(b)
  {
    hide DepsOK, Steps, Takes, Gone;
    forall y | y in b.d.live ensures !Gone(b, y) {
      StepOnItem(a, op, b, y);
    }
  }

  /** From a chart in which nothing retracted is live, none ever is. */
  lemma {:induction false} RunKeepsApart(ops: seq<Op>, run: seq<Snap>, k: nat)
    requires IsRun(ops, run) && Apart(run[0]) && k < |run|
    ensures Apart(run[k])
  {
    hide Steps, Apart, SnapOK;
    if k > 0 {
      RunKeepsApart(ops, run, k - 1);
      StepKeepsApart(run[k - 1], ops[k - 1], run[k]);
    }
  }

  /** A mark stays. */
  lemma {:induction false} GoneStays(ops: seq<Op>, run: seq<Snap>, j: nat, k: nat, y: BItem)
    requires IsRun(ops, run) && j <= k < |run| && Gone(run[j], y)
    ensures Gone(run[k], y)
    decreases k
  {
    hide Steps, SnapOK, Gone, Takes;
    if j < k {
      GoneStays(ops, run, j, k - 1, y);
      StepOnItem(run[k - 1], ops[k - 1], run[k], y);
    }
  }

  /** A retraction before step `k` took `y` from its set. */
  ghost predicate Lost(ops: seq<Op>, run: seq<Snap>, k: nat, y: BItem)
    requires IsRun(ops, run)
  {
    exists j: nat :: j < k && j < |ops| && TakesLive(run[j], ops[j], y)
  }

  ghost predicate TakesLive(a: Snap, op: Op, y: BItem)
    requires SnapOK(a)
  {
    op.Refuted? && y in a.d.live && Takes(a.d, op.x, y)
  }

  /** An insertion before step `k` met `y` unmarked. */
  ghost predicate Entered(ops: seq<Op>, run: seq<Snap>, k: nat, y: BItem)
    requires IsRun(ops, run)
  {
    exists j: nat :: j < k && j < |ops| && ops[j] == Inserted(y) && !Gone(run[j], y)
  }

  lemma LostIsGone(ops: seq<Op>, run: seq<Snap>, k: nat, y: BItem)
    requires IsRun(ops, run) && k < |run| && Lost(ops, run, k, y)
    ensures Gone(run[k], y)
  {
    hide Steps, Gone, Takes;
    var j: nat :| j < k && j < |ops| && TakesLive(run[j], ops[j], y);
    StepOnItem(run[j], ops[j], run[j + 1], y);
    GoneStays(ops, run, j + 1, k, y);
  }

  /** Where a run leads, told by its operations: an item is in its set exactly when it was there at the start or was
      inserted unmarked, and no retraction since has taken it. */
  lemma {:induction false} LiveExactly(ops: seq<Op>, run: seq<Snap>, k: nat, y: BItem)
    requires IsRun(ops, run) && Apart(run[0]) && k < |run|
    ensures y in run[k].d.live <==> (y in run[0].d.live || Entered(ops, run, k, y)) && !Lost(ops, run, k, y)
  {
    hide Steps, Gone, Takes, DepsOK;
    if k > 0 {
      var i := k - 1;
      LiveExactly(ops, run, i, y);
      StepOnItem(run[i], ops[i], run[k], y);
      RunKeepsApart(ops, run, k);
      if Lost(ops, run, k, y) {
        LostIsGone(ops, run, k, y);
      }
      if Entered(ops, run, k, y) && !Entered(ops, run, i, y) {
        assert ops[i] == Inserted(y) && !Gone(run[i], y);
      }
      if y in run[i].d.live && ops[i].Refuted? && Takes(run[i].d, ops[i].x, y) {
        assert TakesLive(run[i], ops[i], y);
      }
    }
  }

  /** What has once left the chart never comes back. */
  lemma {:induction false} NoReturn(ops: seq<Op>, run: seq<Snap>, j: nat, k: nat, m: nat, y: BItem)
    requires IsRun(ops, run) && Apart(run[0]) && j <= k <= m < |run|
    requires y in run[j].d.live && y !in run[k].d.live
    ensures y !in run[m].d.live
  {
    hide Steps, Gone, Takes, SnapOK, TakesLive;
    LiveExactly(ops, run, j, y);
    LiveExactly(ops, run, k, y);
    LiveExactly(ops, run, m, y);
  }

  /** The operations and the chart they start from decide every chart of the run. */
  lemma {:induction false} RunIsDetermined(ops: seq<Op>, run: seq<Snap>, other: seq<Snap>, k: nat)
    requires IsRun(ops, run) && IsRun(ops, other) && run[0] == other[0] && k < |run|
    ensures run[k] == other[k]
  {
    hide IsClosure, DepsOK, Remove, RestWithout, WithEntry;
    if k > 0 {
      RunIsDetermined(ops, run, other, k - 1);
      var a, op := run[k - 1], ops[k - 1];
      if op.Refuted? {
        var D :| Refutes(a, op.x, D, run[k]);
        var E :| Refutes(a, op.x, E, other[k]);
        ClosureIsUnique(a.d, {op.x}, D, E);
      }
    }
  }

  /** What a retraction leaves, item by item and entry by entry: what it takes is unparked and, when it was in its set,
      uncounted, its edges gone and its waiting entries dead; nothing else is touched. */
  lemma RefutedExactly(a: Snap, x: BItem, b: Snap)
    requires SnapOK(a) && OpOK(a.d.G, Refuted(x)) && Steps(a, Refuted(x), b)
    ensures forall y :: y in b.rest.parked <==> y in a.rest.parked && !Takes(a.d, x, y)
    ensures forall y :: y in b.d.counted <==> y in a.d.counted && !(y in a.d.live && Takes(a.d, x, y))
    ensures forall y :: Edges(b.d.forward, y) == if y in a.d.live && Takes(a.d, x, y) then [] else Edges(a.d.forward, y)
    ensures forall k :: Edges(b.d.onKey, k) == if LosesAll(a, x, k) then [] else Edges(a.d.onKey, k)
    ensures |b.rest.rows| == |a.rest.rows|
    ensures forall p :: 0 <= p < |a.rest.rows| ==> DeadIn(a, x, a.rest.rows[p], b.rest.rows[p])
  {
    hide IsClosure, Takes, LosesAll, Falls;
    var D :| Refutes(a, x, D, b);
    forall y ensures Takes(a.d, x, y) <==> y in D {
      TakenIsClosure(a.d, x, D, y);
    }
    forall k ensures Falls(a.d, k, D) <==> LosesAll(a, x, k) {
      FallsIsLosesAll(a, x, D, k);
    }
  }

  /** The key has completions that count for it, and the retraction of `x` takes all of them from their set. */
  ghost predicate LosesAll(a: Snap, x: BItem, k: Key)
    requires SnapOK(a)
  {
    && (exists z :: z in a.d.counted && KeyOf(a.d.G, z) == k)
    && forall z :: z in a.d.counted && KeyOf(a.d.G, z) == k ==> z in a.d.live && Takes(a.d, x, z)
  }

  lemma FallsIsLosesAll(a: Snap, x: BItem, D: set<BItem>, k: Key)
    requires SnapOK(a) && forall y :: Takes(a.d, x, y) <==> y in D
    ensures Falls(a.d, k, D) <==> LosesAll(a, x, k)
  {
    hide Takes;
    if LosesAll(a, x, k) {
      var z :| z in a.d.counted && KeyOf(a.d.G, z) == k;
      assert z in Support(a.d, k);
    }
    if Falls(a.d, k, D) {
      var z :| z in Support(a.d, k);
      assert z in a.d.counted && KeyOf(a.d.G, z) == k;
      forall z | z in a.d.counted && KeyOf(a.d.G, z) == k ensures z in a.d.live && Takes(a.d, x, z) {
        assert z in Support(a.d, k);
      }
    }
  }

  ghost predicate DeadIn(a: Snap, x: BItem, was: seq<Entry>, now: seq<Entry>)
    requires DepsOK(a.d)
  {
    && |now| == |was|
    && forall i :: 0 <= i < |was| ==>
                     now[i] == if was[i].it in a.d.live && Takes(a.d, x, was[i].it) then Entry(-1, was[i].it)
                     else was[i]
  }

  class Chart {
    const G: seq<BProd>
    var S: seq<set<BItem>>            // the Earley sets
    var U: seq<set<BItem>>            // per set, the items retracted from it
    var c: set<BItem>                 // conjuncts parked until their group is resolved
    var cache: seq<seq<Entry>>        // waiting lists; erasing leaves a tombstone
    var forward: map<BItem, seq<BItem>>
    var onKey: map<Key, seq<BItem>>
    var count: map<Key, nat>
    var counted: set<BItem>
    var epoch: nat                    // bumped whenever a set loses an item

    ghost function Live(): set<BItem>
      reads this
    {
      AllOf(S)
    }

    ghost function Now(): Deps
      reads this
    {
      Deps(G, Live(), forward, onKey, counted)
    }

    ghost function Others(): Rest
      reads this
    {
      Rest(c, U, cache)
    }

    ghost predicate Valid()
      reads this
    {
      && DepsOK(Now()) && CountsOK(Now(), count) && RowsOK(G, cache)
      && |U| <= |S| && forall k, x :: 0 <= k < |S| && x in S[k] ==> x.at == k
    }

    /** The chart at the start of a parse. */
    constructor (g: seq<BProd>)
      ensures Valid() && G == g && S == [{}] && U == [] && c == {} && cache == []
      ensures forward == map[] && onKey == map[] && count == map[] && counted == {}
    {
      G := g;
      S, U, c, cache := [{}], [], {}, [];
      forward, onKey, count, counted, epoch := map[], map[], map[], {}, 0;
      new;
      assert forall k :: Support(Now(), k) == {};
    }

    /** Whether `add` refuses an item: it was retracted from its set, or is in it. */
    method Refuses(x: BItem) returns (refused: bool)
      ensures refused <==> (x.at < |U| && x in U[x.at]) || (x.at < |S| && x in S[x.at])
    {
      refused := (x.at < |U| && x in U[x.at]) || (x.at < |S| && x in S[x.at]);
    }

    /** Puts an item into its set. */
    method Insert(x: BItem)
      requires Valid() && Fits(G, x)
      modifies `S
      ensures Valid() && Live() == old(Live()) + {x} && |S| == if x.at < |old(S)| then |old(S)| else x.at + 1
    {
      hide DepsOK, CountsOK, RowsOK, AllOf;
      ghost var d0 := Now();
      PaddedAllOf(S, x.at + 1);
      AllOfMore(PaddedSets(S, x.at + 1), x);
      MoreLive(d0, count, x);
      S := PaddedSets(S, x.at + 1);
      S := S[x.at := S[x.at] + {x}];
      assert Now() == d0.(live := d0.live + {x});
    }

    /** Parks a completed conjunct until its group is resolved. */
    method Park(x: BItem)
      requires Valid()
      modifies `c
      ensures Valid() && c == old(c) + {x}
    {
      c := c + {x};
    }

    /** Enters an item into the waiting list of what it waits for, once. */
    method CacheInsert(x: BItem)
      requires Valid() && Fits(G, x) && !Completed(G, x) && WaitedFor(G, x).NT?
      modifies `cache
      ensures Valid() && x.at < |cache| && PaddedRows(old(cache), x.at + 1)[x.at] <= cache[x.at]
      ensures cache == PaddedRows(old(cache), x.at + 1)[x.at := cache[x.at]]
      ensures cache == WithEntry(old(cache), x.at, Entry(WaitedFor(G, x).n, x))
      ensures var e := Entry(WaitedFor(G, x).n, x);
              e in cache[x.at] && |cache[x.at]| <= |PaddedRows(old(cache), x.at + 1)[x.at]| + 1
    {
      hide DepsOK, CountsOK;
      cache := PaddedRows(cache, x.at + 1);
      var e := Entry(WaitedFor(G, x).n, x);
      var k := 0;
      while k < |cache[x.at]| && cache[x.at][k] != e
        invariant 0 <= k <= |cache[x.at]| && e !in cache[x.at][..k]
      {
        k := k + 1;
      }
      if k == |cache[x.at]| {
        assert cache[x.at][..k] == cache[x.at];
        cache := cache[x.at := cache[x.at] + [e]];
      }
    }

    /** At the end of a position the bookkeeping of its items is dropped. */
    method EndPosition()
      requires Valid()
      modifies `forward, `onKey, `count, `counted
      ensures Valid() && forward == map[] && onKey == map[] && count == map[] && counted == {}
    {
      forward, onKey, count, counted := map[], map[], map[], {};
      assert forall k :: Support(Now(), k) == {};
    }

    /** Marks the entry dead instead of moving it, so positions in the list stay valid. */
    method CacheErase(nt: nat, pos: nat, i: BItem)
      requires RowsOK(G, cache) && Fits(G, i) && !Completed(G, i) && WaitedFor(G, i) == NT(nt) && i.at == pos
      modifies `cache
      ensures |cache| == |old(cache)| && forall p :: 0 <= p < |cache| ==> cache[p] == Tombed(old(cache)[p], {i})
    {
      if pos < |cache| {
        var k := 0;
        while k < |cache[pos]| && !(cache[pos][k].nt == nt && cache[pos][k].it == i)
          invariant 0 <= k <= |cache[pos]|
          invariant forall j :: 0 <= j < k ==> !(cache[pos][j].nt == nt && cache[pos][j].it == i)
        {
          k := k + 1;
        }
        if k < |cache[pos]| {
          cache := cache[pos := cache[pos][k := cache[pos][k].(nt := DEAD)]];
        }
      }
    }

    /** Unparks `x` and marks it as retracted. */
    method Mark(x: BItem)
      requires |U| <= |S|
      modifies `epoch, `U, `c
      ensures epoch == old(epoch) + 1 && c == old(c) - {x} && U == Marked(old(U), |S|, x)
    {
      hide Marked;
      MarkedByUpdate(U, |S|, x);
      epoch := epoch + 1;
      if |U| < |S| {
        U := U + seq(|S| - |U|, _ => {});
      }
      c := c - {x};
      if x.at < |S| {
        U := U[x.at := U[x.at] + {x}];
      }
    }

    ghost predicate AtHome()
      reads this
    {
      forall k, x :: 0 <= k < |S| && x in S[k] ==> x.at == k
    }

    /** Takes `x` out of its set and off the waiting lists, if it is in its set. */
    method TakeOut(x: BItem) returns (present: bool)
      requires RowsOK(G, cache) && Fits(G, x) && AtHome()
      modifies `S, `cache
      ensures AtHome() && |S| == |old(S)| && |cache| == |old(cache)| && (present <==> x in old(Live()))
      ensures Live() == old(Live()) - {x}
      ensures forall p :: 0 <= p < |cache| ==> cache[p] == if present then Tombed(old(cache)[p], {x}) else old(cache)[p]
    {
      hide RowsOK, Tombed, AllOf;
      InAllOf(S, x);
      present := x.at < |S| && x in S[x.at];
      if present {
        AllOfLess(S, x);
        S := S[x.at := S[x.at] - {x}];
        if !Completed(G, x) && WaitedFor(G, x).NT? {
          CacheErase(WaitedFor(G, x).n, x.at, x);
        } else {
          NoEntry(G, cache, x);
        }
      }
    }

    /** The part of a retraction that concerns `x` alone: unpark it, mark it, and take it out of its set and
        off the waiting lists. */
    method Leave(x: BItem) returns (present: bool)
      requires Valid() && Fits(G, x)
      modifies `epoch, `U, `c, `S, `cache
      ensures Valid() && (present <==> x in old(Live()))
      ensures |S| == |old(S)| && |U| == |S| && epoch > old(epoch)
      ensures Live() == old(Live()) - {x} && Others() == RestWithout(old(Others()), |S|, {x}, old(Live()))
    {
      hide DepsOK, CountsOK, RowsOK, RestWithout, Tombed, AllOf, Marked;
      ghost var d0, r0, live := Now(), Others(), Live();
      RowsStayOK(G, r0, |S|, {x}, live);
      Mark(x);
      present := TakeOut(x);
      RestOfOne(r0, |S|, x, live, cache);
      MarkedLength(r0.gone, |S|, x);
      FewerLive(d0, count, Live());
    }

    /** Follows the forward edges of an item that has left. */
    method Follow(x: BItem) returns (ghost A: set<BItem>)
      requires Valid() && |U| == |S| && x !in Live()
      modifies this
      ensures Valid() && |S| == |old(S)| && |U| == |S| && epoch >= old(epoch)
      ensures IsClosure(Lifted(old(Now()), x), SetOf(old(Edges(forward, x))), A)
      ensures Now() == Remove(Lifted(old(Now()), x), A)
      ensures Others() == RestWithout(old(Others()), |S|, A, old(Live()))
      decreases |Live()|, 2
    {
      hide IsClosure, RestWithout, RowsOK, AllOf, CountsOK, Remove;
      ghost var d0 := Now();
      LiftedCounts(d0, x, count);
      assert Live() - {x} == Live();
      var following := Edges(forward, x);
      forward := forward - {x};
      assert Now() == Lifted(d0, x);
      A := RetractAll(following);
    }

    /** Takes `x` back, with everything that was recorded as derived from it. `D` is what went. */
    method Retract(x: BItem) returns (ghost D: set<BItem>)
      requires Valid() && Fits(G, x)
      modifies this
      ensures Valid() && |S| == |old(S)| && |U| == |S| && epoch > old(epoch)
      ensures IsClosure(old(Now()), {x}, D) && Now() == Remove(old(Now()), D)
      ensures Others() == RestWithout(old(Others()), |S|, D, old(Live()))
      decreases |Live()|, 0
    {
      hide IsClosure, RestWithout, RowsOK, AllOf, CountsOK, Remove, UncountedTo, DepsOK;
      ghost var d0, r0, live := Now(), Others(), Live();
      OnlyCompletedCount(d0, x);
      var present := Leave(x);
      D := {x};
      if !present {
        AbsentClosure(d0, x);
        assert Live() == live;
        return;
      }
      LiftedTwice(d0, x);
      ghost var A := Follow(x);
      D := A + {x};
      RestTwice(r0, |S|, {x}, A, live);
      assert {x} + A == D;
      RemoveShrinks(Lifted(d0, x), A);
      NotCounted(d0, x, A);
      assert Live() == live - D;
      if Completed(G, x) && x in counted {
        ghost var E := Uncount(x);
        RestTwice(r0, |S|, D, E, live);
        WholeClosure(d0, x, A, E, Now());
        D := D + E;
      } else {
        WholeClosure(d0, x, A, {}, Now());
        assert D + {} == D;
      }
    }

    /** A completion stops counting for its key. */
    method Uncount(x: BItem) returns (ghost E: set<BItem>)
      requires Valid() && |U| == |S| && x in counted && x.prod < |G|
      modifies this
      ensures Valid() && |S| == |old(S)| && |U| == |S| && epoch >= old(epoch)
      ensures UncountedTo(old(Now()), x, E, Now())
      ensures Others() == RestWithout(old(Others()), |S|, E, old(Live()))
      decreases |Live()|, 3
    {
      hide IsClosure, RestWithout, RowsOK, AllOf, Remove, Support, DepsOK;
      ghost var before := Now();
      counted := counted - {x};
      var key := KeyOf(G, x);
      OneLess(before, x);
      OnlyCompletedCount(before, x);
      if key in count && count[key] > 0 {
        count := count[key := count[key] - 1];
      }
      assert Now() == Uncounted(before, x);
      E := CascadeUncomplete(key);
    }

    /** A key without support takes back everything that rests on it. */
    method CascadeUncomplete(key: Key) returns (ghost E: set<BItem>)
      requires Valid() && |U| == |S|
      modifies this
      ensures Valid() && |S| == |old(S)| && |U| == |S| && epoch >= old(epoch)
      ensures Support(old(Now()), key) != {} ==> E == {} && Now() == old(Now())
      ensures Support(old(Now()), key) == {} ==>
                && IsClosure(Taken(old(Now()), key), SetOf(Edges(old(onKey), key)), E)
                && Now() == Remove(Taken(old(Now()), key), E)
      ensures Others() == RestWithout(old(Others()), |S|, E, old(Live()))
      decreases |Live()|, 2
    {
      ghost var d0 := Now();
      RestNothing(Others(), |S|, Live());
      if key in count && count[key] > 0 {
        E := {};
        return;
      }
      var deps := Edges(onKey, key);
      onKey := onKey - {key};
      assert Now() == Taken(d0, key);
      E := RetractAll(deps);
    }

    method RetractAll(xs: seq<BItem>) returns (ghost D: set<BItem>)
      requires Valid() && forall k :: 0 <= k < |xs| ==> Fits(G, xs[k])
      requires |U| == |S|
      modifies this
      ensures Valid() && |S| == |old(S)| && |U| == |S| && epoch >= old(epoch)
      ensures IsClosure(old(Now()), SetOf(xs), D) && Now() == Remove(old(Now()), D)
      ensures Others() == RestWithout(old(Others()), |S|, D, old(Live()))
      decreases |Live()|, 1
    {
      hide IsClosure, Remove, RestWithout, CountsOK, RowsOK, DepsOK, AllOf;
      ghost var d0, r0, live := Now(), Others(), Live();
      D := {};
      EmptyClosure(d0);
      RestNothing(r0, |S|, live);
      var k := 0;
      while k < |xs|
        invariant 0 <= k <= |xs| && Valid() && |S| == |old(S)| == |U| && epoch >= old(epoch)
        invariant IsClosure(d0, SetOf(xs[..k]), D) && Now() == Remove(d0, D)
        invariant Others() == RestWithout(r0, |S|, D, live)
      {
        RemoveShrinks(d0, D);
        ghost var E := Retract(xs[k]);
        ClosureComposes(d0, SetOf(xs[..k]), D, {xs[k]}, E);
        RestTwice(r0, |S|, D, E, live);
        assert SetOf(xs[..k + 1]) == SetOf(xs[..k]) + {xs[k]};
        D := D + E;
        k := k + 1;
      }
      assert xs[..|xs|] == xs;
    }

    /** Counts a completion as support for its key, once. */
    method CountCompletion(x: BItem)
      requires Valid() && Fits(G, x) && Completed(G, x)
      modifies `counted, `count
      ensures Valid() && counted == old(counted) + {x}
    {
      if x !in counted {
        ghost var d0 := Now();
        var key := KeyOf(G, x);
        counted := counted + {x};
        count := count[key := (if key in count then count[key] else 0) + 1];
        assert Uncounted(Now(), x).counted == d0.counted;
        OneLess(Now(), x);
        forall k ensures Support(Uncounted(Now(), x), k) == Support(d0, k) {
        }
      }
    }

    /** Records that `y` was made by advancing `x` over a completion of `key`; the edge from `x` is kept only
        when `x` is in the same set, since items of earlier sets are never retracted. */
    method Record(x: BItem, key: Key, y: BItem)
      requires Valid() && Fits(G, y)
      modifies `forward, `onKey
      ensures Valid()
      ensures onKey == old(onKey)[key := Edges(old(onKey), key) + [y]]
      ensures forward == if x.at == key.at then old(forward)[x := Edges(old(forward), x) + [y]] else old(forward)
    {
      hide DepsOK, CountsOK, RowsOK, AllOf;
      MoreEdges(Now(), count, x, key, y);
      onKey := onKey[key := Edges(onKey, key) + [y]];
      if x.at == key.at {
        forward := forward[x := Edges(forward, x) + [y]];
      }
    }

    ghost function Snapshot(): Snap
      reads this
    {
      Snap(Now(), Others(), |S|)
    }

    method Do(op: Op)
      requires Valid() && OpOK(G, op)
      modifies this
      ensures Valid() && Steps(old(Snapshot()), op, Snapshot())
    {
      hide DepsOK, CountsOK, RowsOK, AllOf, IsClosure, Remove, RestWithout, WithEntry;
      ghost var a := Snapshot();
      match op
      case Inserted(x) =>
        InAllOf(S, x);
        var refused := Refuses(x);
        if !refused {
          Insert(x);
        }
      case Parked(x) => Park(x);
      case Waits(x) => CacheInsert(x);
      case Counted(x) => CountCompletion(x);
      case Recorded(x, key, y) => Record(x, key, y);
      case Refuted(x) =>
        ghost var D := Retract(x);
        assert Refutes(a, x, D, Snapshot());
      case PositionDone => EndPosition();
    }

    /** Whatever happens to a chart, in whatever order: each operation does to it what it says, the count of every key
        stays the number of its counted completions, and live waiting entries stay those of items that wait. */
    method Run(ops: seq<Op>) returns (ghost run: seq<Snap>)
      requires Valid() && forall k :: 0 <= k < |ops| ==> OpOK(G, ops[k])
      modifies this
      ensures Valid() && IsRun(ops, run) && run[0] == old(Snapshot()) && run[|ops|] == Snapshot()
    {
      hide DepsOK, CountsOK, RowsOK, AllOf, Steps;
      SnapshotOK();
      run := [Snapshot()];
      for k := 0 to |ops|
        invariant Valid() && IsRun(ops[..k], run) && run[0] == old(Snapshot()) && run[k] == Snapshot()
      {
        assert OpOK(G, ops[k]);
        Do(ops[k]);
        SnapshotOK();
        run := run + [Snapshot()];
      }
      assert ops[..|ops|] == ops;
    }

    lemma SnapshotOK()
      requires Valid()
      ensures SnapOK(Snapshot())
    {
      hide DepsOK;
    }
  }

  /** A run from the empty chart: what is in the sets at the end is what the operations say. */
  method RunFromStart(g: seq<BProd>, ops: seq<Op>) returns (chart: Chart, ghost run: seq<Snap>)
    requires forall k :: 0 <= k < |ops| ==> OpOK(g, ops[k])
    ensures IsRun(ops, run) && run[|ops|] == chart.Snapshot()
    ensures run[0] == Snap(Deps(g, {}, map[], map[], {}), Rest({}, [], []), 1)
    ensures forall y :: y in chart.Live() <==> Entered(ops, run, |ops|, y) && !Lost(ops, run, |ops|, y)
    ensures forall y :: Gone(chart.Snapshot(), y) ==> y !in chart.Live()
  {
    hide SnapOK, Steps, Lost, Entered, Gone;
    chart := new Chart(g);
    assert chart.Live() == {};
    assert Apart(chart.Snapshot());
    run := chart.Run(ops);
    forall y ensures y in chart.Live() <==> Entered(ops, run, |ops|, y) && !Lost(ops, run, |ops|, y) {
      LiveExactly(ops, run, |ops|, y);
    }
    RunKeepsApart(ops, run, |ops|);
  }
}
