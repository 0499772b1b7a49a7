/** Counting the parses of a tree with nodes of alternatives: an explicit stack, a memo, and saturating arithmetic. */
module ParseCounts {
  import opened Options

  /** A node knows its first child and its next sibling; siblings do not belong to the node's own tree. */
  datatype Bin = Nil | Bin(lit: int, l: Bin, r: Bin)

  const WORDS: nat := SIZE_MAX + 1

  type Word = n: nat | n < WORDS

  function Clamp(n: nat): Word {
    if n < SIZE_MAX then n else SIZE_MAX
  }

  // ---- what is counted

  /** One way to read a tree: every node of alternatives that is reached keeps the alternative at index `pick`. */
  datatype Reading = Reading(lit: int, pick: nat, kids: seq<Reading>)

  ghost predicate Reads(amb: int, x: Bin, r: Reading)
    requires x.Bin?
    decreases x, 1
  {
    && r.lit == x.lit
    && if x.l.Nil? then r.pick == 0 && r.kids == []
       else if x.lit == amb then |r.kids| == 1 && ReadsAlternative(amb, x.l, r.pick, r.kids[0])
       else r.pick == 0 && ReadsChain(amb, x.l, r.kids)
  }

  ghost predicate ReadsAlternative(amb: int, c: Bin, pick: nat, r: Reading)
    decreases c, 2
  {
    c.Bin? && if pick == 0 then Reads(amb, c, r) else ReadsAlternative(amb, c.r, pick - 1, r)
  }

  ghost predicate ReadsChain(amb: int, c: Bin, rs: seq<Reading>)
    decreases c, 2
  {
    if c.Nil? then rs == [] else rs != [] && Reads(amb, c, rs[0]) && ReadsChain(amb, c.r, rs[1..])
  }

  // ---- how many there are

  function Count(amb: int, x: Bin): (n: nat)
    requires x.Bin?
    ensures n > 0
    decreases x, 1
  {
    if x.l.Nil? then 1 else if x.lit == amb then Sum(amb, x.l) else Product(amb, x.l)
  }

  function Sum(amb: int, c: Bin): (n: nat)
    ensures c.Bin? ==> n > 0
    decreases c, 2
  {
    if c.Nil? then 0 else Count(amb, c) + Sum(amb, c.r)
  }

  function Product(amb: int, c: Bin): (n: nat)
    ensures n > 0
    decreases c, 2
  {
    if c.Nil? then 1 else Times(Count(amb, c), Product(amb, c.r))
  }

  function Times(a: nat, b: nat): (n: nat)
    ensures n == a * b
    ensures a > 0 && b > 0 ==> n > 0
  {
    if a == 0 then 0 else b + Times(a - 1, b)
  }

  function Tag(lit: int, pick: nat, rs: seq<Reading>): (ts: seq<Reading>)
    ensures |ts| == |rs| && forall i :: 0 <= i < |rs| ==> ts[i] == Reading(lit, pick, [rs[i]])
  {
    seq(|rs|, i requires 0 <= i < |rs| => Reading(lit, pick, [rs[i]]))
  }

  function Wrap(lit: int, rss: seq<seq<Reading>>): (ts: seq<Reading>)
    ensures |ts| == |rss| && forall i :: 0 <= i < |rss| ==> ts[i] == Reading(lit, 0, rss[i])
  {
    seq(|rss|, i requires 0 <= i < |rss| => Reading(lit, 0, rss[i]))
  }

  function Prepend(r: Reading, rss: seq<seq<Reading>>): (ts: seq<seq<Reading>>)
    ensures |ts| == |rss| && forall i :: 0 <= i < |rss| ==> ts[i] == [r] + rss[i]
  {
    seq(|rss|, i requires 0 <= i < |rss| => [r] + rss[i])
  }

  function Cross(rs: seq<Reading>, rss: seq<seq<Reading>>): seq<seq<Reading>> {
    if rs == [] then [] else Prepend(rs[0], rss) + Cross(rs[1..], rss)
  }

  /** All readings, listed. */
  function Readings(amb: int, x: Bin): seq<Reading>
    requires x.Bin?
    decreases x, 1
  {
    if x.l.Nil? then [Reading(x.lit, 0, [])]
    else if x.lit == amb then Alternatives(amb, x.lit, x.l, 0)
    else Wrap(x.lit, Chains(amb, x.l))
  }

  function Alternatives(amb: int, lit: int, c: Bin, pick: nat): seq<Reading>
    decreases c, 2
  {
    if c.Nil? then [] else Tag(lit, pick, Readings(amb, c)) + Alternatives(amb, lit, c.r, pick + 1)
  }

  function Chains(amb: int, c: Bin): seq<seq<Reading>>
    decreases c, 2
  {
    if c.Nil? then [[]] else Cross(Readings(amb, c), Chains(amb, c.r))
  }

  lemma {:induction false} CrossHas(rs: seq<Reading>, rss: seq<seq<Reading>>, t: seq<Reading>)
    ensures t in Cross(rs, rss) <==> t != [] && t[0] in rs && t[1..] in rss
    ensures |Cross(rs, rss)| == Times(|rs|, |rss|)
  {
    if rs != [] {
      CrossHas(rs[1..], rss, t);
      var p := Prepend(rs[0], rss);
      if t != [] && t[0] == rs[0] && t[1..] in rss {
        var i :| 0 <= i < |rss| && rss[i] == t[1..];
        assert p[i] == t;
      }
      assert t in p <==> t != [] && t[0] == rs[0] && t[1..] in rss;
      assert rs == [rs[0]] + rs[1..];
    }
  }

  lemma {:induction false} CrossDistinct(rs: seq<Reading>, rss: seq<seq<Reading>>)
    requires Distinct(rs) && Distinct(rss)
    ensures Distinct(Cross(rs, rss))
  {
    if rs != [] {
      CrossDistinct(rs[1..], rss);
      var p, q := Prepend(rs[0], rss), Cross(rs[1..], rss);
      forall i, j | 0 <= i < |p| && 0 <= j < |q| ensures p[i] != q[j] {
        CrossHas(rs[1..], rss, q[j]);
        assert q[j] in q;
        assert p[i][0] == rs[0];
      }
      forall i, j | 0 <= i < j < |p| ensures p[i] != p[j] {
        assert p[i][1..] == rss[i] && p[j][1..] == rss[j];
      }
    }
  }

  /** The list has every reading, once, and its length is the count. */
  lemma {:induction false} CountIsExact(amb: int, x: Bin)
    requires x.Bin?
    ensures forall r :: r in Readings(amb, x) <==> Reads(amb, x, r)
    ensures Distinct(Readings(amb, x)) && |Readings(amb, x)| == Count(amb, x)
    decreases x, 1
  {
    var rs := Readings(amb, x);
    if x.l.Bin? && x.lit == amb {
      AlternativesExact(amb, x.lit, x.l, 0);
      forall r ensures r in rs <==> Reads(amb, x, r) {
      }
    } else if x.l.Bin? {
      ChainsExact(amb, x.l);
      var rss := Chains(amb, x.l);
      forall r ensures r in rs <==> Reads(amb, x, r) {
        if Reads(amb, x, r) {
          assert r.kids in rss;
          var i :| 0 <= i < |rss| && rss[i] == r.kids;
          assert rs[i] == r;
        }
      }
    }
  }

  lemma {:induction false} AlternativesExact(amb: int, lit: int, c: Bin, pick: nat)
    ensures forall r :: r in Alternatives(amb, lit, c, pick) <==>
              r.lit == lit && |r.kids| == 1 && r.pick >= pick && ReadsAlternative(amb, c, r.pick - pick, r.kids[0])
    ensures Distinct(Alternatives(amb, lit, c, pick)) && |Alternatives(amb, lit, c, pick)| == Sum(amb, c)
    decreases c, 2
  {
    if c.Bin? {
      CountIsExact(amb, c);
      AlternativesExact(amb, lit, c.r, pick + 1);
      var a, b := Tag(lit, pick, Readings(amb, c)), Alternatives(amb, lit, c.r, pick + 1);
      forall r ensures r in a <==> r.lit == lit && |r.kids| == 1 && r.pick == pick && Reads(amb, c, r.kids[0]) {
        if r.lit == lit && |r.kids| == 1 && r.pick == pick && Reads(amb, c, r.kids[0]) {
          assert r.kids[0] in Readings(amb, c);
          var i :| 0 <= i < |a| && Readings(amb, c)[i] == r.kids[0];
          assert a[i] == r;
        }
      }
      forall i, j | 0 <= i < |a| && 0 <= j < |b| ensures a[i] != b[j] {
        assert b[j] in b && a[i] in a;
      }
    }
  }

  lemma {:induction false} ChainsExact(amb: int, c: Bin)
    ensures forall rs :: rs in Chains(amb, c) <==> ReadsChain(amb, c, rs)
    ensures Distinct(Chains(amb, c)) && |Chains(amb, c)| == Product(amb, c)
    decreases c, 2
  {
    if c.Bin? {
      CountIsExact(amb, c);
      ChainsExact(amb, c.r);
      CrossDistinct(Readings(amb, c), Chains(amb, c.r));
      CrossHas(Readings(amb, c), Chains(amb, c.r), []);
      forall rs ensures rs in Chains(amb, c) <==> ReadsChain(amb, c, rs) {
        CrossHas(Readings(amb, c), Chains(amb, c.r), rs);
      }
    }
  }

  // ---- how many different trees they give

  /** A tree without nodes of alternatives. */
  datatype Plain = Plain(lit: int, kids: seq<Plain>)

  /** The tree a reading stands for: an alternative that is kept takes the place of its node of alternatives. */
  function PlainOf(amb: int, r: Reading): Plain
    decreases r, 1
  {
    if r.lit == amb && |r.kids| == 1 then PlainOf(amb, r.kids[0]) else Plain(r.lit, PlainsOf(amb, r.kids))
  }

  function PlainsOf(amb: int, rs: seq<Reading>): seq<Plain>
    decreases rs, 0
  {
    if rs == [] then [] else [PlainOf(amb, rs[0])] + PlainsOf(amb, rs[1..])
  }

  function Joined(ts: set<Plain>, kss: set<seq<Plain>>): set<seq<Plain>> {
    set t, ks | t in ts && ks in kss :: [t] + ks
  }

  function Topped(lit: int, kss: set<seq<Plain>>): set<Plain> {
    set ks | ks in kss :: Plain(lit, ks)
  }

  function Trees(amb: int, x: Bin): set<Plain>
    requires x.Bin?
    decreases x, 1
  {
    if x.l.Nil? then {Plain(x.lit, [])} else if x.lit == amb then TreesOfAny(amb, x.l)
        else Topped(x.lit, TreesOfAll(amb, x.l))
  }

  function TreesOfAny(amb: int, c: Bin): set<Plain>
    decreases c, 2
  {
    if c.Nil? then {} else Trees(amb, c) + TreesOfAny(amb, c.r)
  }

  function TreesOfAll(amb: int, c: Bin): set<seq<Plain>>
    decreases c, 2
  {
    if c.Nil? then {[]} else Joined(Trees(amb, c), TreesOfAll(amb, c.r))
  }

  ghost predicate StandsFor(amb: int, x: Bin, t: Plain)
    requires x.Bin?
  {
    exists r :: Reads(amb, x, r) && PlainOf(amb, r) == t
  }

  ghost predicate AnyStandsFor(amb: int, c: Bin, t: Plain) {
    exists pick: nat, r :: ReadsAlternative(amb, c, pick, r) && PlainOf(amb, r) == t
  }

  ghost predicate AllStandFor(amb: int, c: Bin, ks: seq<Plain>) {
    exists rs :: ReadsChain(amb, c, rs) && PlainsOf(amb, rs) == ks
  }

  /** These are the trees the readings stand for. */
  lemma {:induction false} TreesOfReadings(amb: int, x: Bin, t: Plain)
    requires x.Bin?
    ensures t in Trees(amb, x) <==> StandsFor(amb, x, t)
    decreases x, 1
  {
    if x.l.Nil? {
      var r := Reading(x.lit, 0, []);
      assert Reads(amb, x, r) && PlainOf(amb, r) == Plain(x.lit, []);
    } else if x.lit == amb {
      AnyOfReadings(amb, x.l, t);
      if AnyStandsFor(amb, x.l, t) {
        var pick: nat, r :| ReadsAlternative(amb, x.l, pick, r) && PlainOf(amb, r) == t;
        assert Reads(amb, x, Reading(x.lit, pick, [r])) && PlainOf(amb, Reading(x.lit, pick, [r])) == t;
      }
      if StandsFor(amb, x, t) {
        var r :| Reads(amb, x, r) && PlainOf(amb, r) == t;
        assert ReadsAlternative(amb, x.l, r.pick, r.kids[0]) && PlainOf(amb, r.kids[0]) == t;
      }
    } else {
      AllOfReadings(amb, x.l, t.kids);
      if t.lit == x.lit && AllStandFor(amb, x.l, t.kids) {
        var rs :| ReadsChain(amb, x.l, rs) && PlainsOf(amb, rs) == t.kids;
        assert Reads(amb, x, Reading(x.lit, 0, rs)) && t == Plain(x.lit, t.kids);
      }
      if StandsFor(amb, x, t) {
        var r :| Reads(amb, x, r) && PlainOf(amb, r) == t;
        assert ReadsChain(amb, x.l, r.kids) && t == Plain(x.lit, PlainsOf(amb, r.kids));
      }
    }
  }

  lemma {:induction false} AnyOfReadings(amb: int, c: Bin, t: Plain)
    ensures t in TreesOfAny(amb, c) <==> AnyStandsFor(amb, c, t)
    decreases c, 2
  {
    if c.Bin? {
      TreesOfReadings(amb, c, t);
      AnyOfReadings(amb, c.r, t);
      if StandsFor(amb, c, t) {
        var r :| Reads(amb, c, r) && PlainOf(amb, r) == t;
        assert ReadsAlternative(amb, c, 0, r);
      }
      if AnyStandsFor(amb, c.r, t) {
        var pick: nat, r :| ReadsAlternative(amb, c.r, pick, r) && PlainOf(amb, r) == t;
        assert ReadsAlternative(amb, c, pick + 1, r);
      }
      if AnyStandsFor(amb, c, t) {
        var pick: nat, r :| ReadsAlternative(amb, c, pick, r) && PlainOf(amb, r) == t;
        assert if pick == 0 then Reads(amb, c, r) else ReadsAlternative(amb, c.r, pick - 1, r);
      }
    }
  }

  lemma {:induction false} AllOfReadings(amb: int, c: Bin, ks: seq<Plain>)
    ensures ks in TreesOfAll(amb, c) <==> AllStandFor(amb, c, ks)
    decreases c, 2
  {
    if c.Nil? {
      assert ReadsChain(amb, c, []) && PlainsOf(amb, []) == [];
    } else if ks != [] {
      TreesOfReadings(amb, c, ks[0]);
      AllOfReadings(amb, c.r, ks[1..]);
      InJoined(Trees(amb, c), TreesOfAll(amb, c.r), ks);
      if StandsFor(amb, c, ks[0]) && AllStandFor(amb, c.r, ks[1..]) {
        var r :| Reads(amb, c, r) && PlainOf(amb, r) == ks[0];
        var rs :| ReadsChain(amb, c.r, rs) && PlainsOf(amb, rs) == ks[1..];
        var both := [r] + rs;
        assert both[1..] == rs && ReadsChain(amb, c, both) && PlainsOf(amb, both) == ks;
      }
      if AllStandFor(amb, c, ks) {
        var rs :| ReadsChain(amb, c, rs) && PlainsOf(amb, rs) == ks;
        assert PlainsOf(amb, rs)[1..] == PlainsOf(amb, rs[1..]);
        assert StandsFor(amb, c, ks[0]) && AllStandFor(amb, c.r, ks[1..]);
      }
    }
  }

  lemma InJoined(ts: set<Plain>, kss: set<seq<Plain>>, ks: seq<Plain>)
    ensures ks in Joined(ts, kss) <==> ks != [] && ks[0] in ts && ks[1..] in kss
  {
    if ks in Joined(ts, kss) {
      var t, rest :| t in ts && rest in kss && ks == [t] + rest;
      assert ks[1..] == rest;
    }
    if ks != [] && ks[0] in ts && ks[1..] in kss {
      assert ks == [ks[0]] + ks[1..];
    }
  }

  /** At every node of alternatives, no two alternatives give the same tree. */
  predicate Apart(amb: int, x: Bin)
    requires x.Bin?
    decreases x, 1
  {
    x.l.Nil? || if x.lit == amb then AnyApart(amb, x.l) else AllApart(amb, x.l)
  }

  predicate AnyApart(amb: int, c: Bin)
    decreases c, 2
  {
    c.Nil? || (Apart(amb, c) && Trees(amb, c) !! TreesOfAny(amb, c.r) && AnyApart(amb, c.r))
  }

  predicate AllApart(amb: int, c: Bin)
    decreases c, 2
  {
    c.Nil? || (Apart(amb, c) && AllApart(amb, c.r))
  }

  lemma {:induction false} ToppedSize(lit: int, kss: set<seq<Plain>>)
    ensures |Topped(lit, kss)| == |kss|
    decreases kss
  {
    if kss != {} {
      var ks :| ks in kss;
      ToppedSize(lit, kss - {ks});
      assert Topped(lit, kss) == Topped(lit, kss - {ks}) + {Plain(lit, ks)};
    }
  }

  lemma {:induction false} PrefixedSize(t: Plain, kss: set<seq<Plain>>)
    ensures |Joined({t}, kss)| == |kss|
    decreases kss
  {
    hide Joined;
    forall k ensures k in Joined({t}, kss) <==> k != [] && k[0] == t && k[1..] in kss {
      InJoined({t}, kss, k);
    }
    if ks :| ks in kss {
      var less := Joined({t}, kss - {ks});
      PrefixedSize(t, kss - {ks});
      forall k ensures k in less <==> k != [] && k[0] == t && k[1..] in kss - {ks} {
        InJoined({t}, kss - {ks}, k);
      }
      assert ([t] + ks)[1..] == ks;
      forall k | k in Joined({t}, kss) && k !in less ensures k == [t] + ks {
        assert k == [k[0]] + k[1..];
      }
      assert Joined({t}, kss) == less + {[t] + ks};
    } else {
      assert Joined({t}, kss) == {};
    }
  }

  lemma {:induction false} JoinedSize(ts: set<Plain>, kss: set<seq<Plain>>)
    ensures |Joined(ts, kss)| == Times(|ts|, |kss|)
    decreases ts
  {
    hide Joined;
    forall k ensures k in Joined(ts, kss) <==> k != [] && k[0] in ts && k[1..] in kss {
      InJoined(ts, kss, k);
    }
    if t :| t in ts {
      var a, b := Joined(ts - {t}, kss), Joined({t}, kss);
      JoinedSize(ts - {t}, kss);
      PrefixedSize(t, kss);
      forall k ensures k in a <==> k != [] && k[0] in ts - {t} && k[1..] in kss {
        InJoined(ts - {t}, kss, k);
      }
      forall k ensures k in b <==> k != [] && k[0] in {t} && k[1..] in kss {
        InJoined({t}, kss, k);
      }
      assert Joined(ts, kss) == a + b && a !! b;
    } else {
      assert Joined(ts, kss) == {};
    }
  }

  lemma UnionSize<A>(a: set<A>, b: set<A>)
    ensures |a + b| <= |a| + |b| && (|a + b| == |a| + |b| <==> a !! b)
  {
    assert a + b == a + (b - a) && |a + b| == |a| + |b - a|;
    Bigger(b - a, b);
  }

  lemma TimesGrows(a: nat, b: nat, m: nat, n: nat)
    requires a <= m && b <= n
    ensures a * b <= m * b <= m * n
    ensures a < m && b > 0 ==> a * b < m * b
    ensures b < n && m > 0 ==> m * b < m * n
  {
    assert (m - a) * b == m * b - a * b && m * (n - b) == m * n - m * b;
  }

  lemma TimesTells(a: nat, b: nat, m: nat, n: nat)
    requires a <= m && b <= n && m > 0 && n > 0
    ensures Times(a, b) <= Times(m, n) && (Times(a, b) == Times(m, n) <==> a == m && b == n)
  {
    hide Times;
    TimesGrows(a, b, m, n);
    assert b == 0 ==> a * b == 0;
  }

  /** The count is at least the number of different trees, and is that number exactly when at every node of
      alternatives no two alternatives give the same tree. */
  lemma {:induction false} CountsTrees(amb: int, x: Bin)
    requires x.Bin?
    ensures |Trees(amb, x)| <= Count(amb, x) && (|Trees(amb, x)| == Count(amb, x) <==> Apart(amb, x))
    decreases x, 1
  {
    if x.l.Bin? && x.lit == amb {
      CountsAny(amb, x.l);
    } else if x.l.Bin? {
      CountsAll(amb, x.l);
      ToppedSize(x.lit, TreesOfAll(amb, x.l));
    }
  }

  lemma {:induction false} CountsAny(amb: int, c: Bin)
    ensures |TreesOfAny(amb, c)| <= Sum(amb, c) && (|TreesOfAny(amb, c)| == Sum(amb, c) <==> AnyApart(amb, c))
    decreases c, 2
  {
    if c.Bin? {
      CountsTrees(amb, c);
      CountsAny(amb, c.r);
      UnionSize(Trees(amb, c), TreesOfAny(amb, c.r));
    }
  }

  lemma {:induction false} CountsAll(amb: int, c: Bin)
    ensures |TreesOfAll(amb, c)| <= Product(amb, c) && (|TreesOfAll(amb, c)| == Product(amb, c) <==> AllApart(amb, c))
    decreases c, 2
  {
    if c.Bin? {
      CountsTrees(amb, c);
      CountsAll(amb, c.r);
      JoinedSize(Trees(amb, c), TreesOfAll(amb, c.r));
      TimesTells(|Trees(amb, c)|, |TreesOfAll(amb, c.r)|, Count(amb, c), Product(amb, c.r));
    }
  }

  // ---- saturating arithmetic on machine words

  method SatAdd(a: Word, b: Word) returns (r: Word)
    ensures r == Clamp(a + b)
  {
    if a == SIZE_MAX || b == SIZE_MAX {
      return SIZE_MAX;
    }
    var s := (a + b) % WORDS;
    return if s < a then SIZE_MAX else s;
  }

  method SatMul(a: Word, b: Word) returns (r: Word)
    ensures r == Clamp(a * b)
  {
    if a == 0 || b == 0 {
      return 0;
    }
    if a == SIZE_MAX || b == SIZE_MAX {
      AtLeast(a, b);
      return SIZE_MAX;
    }
    var p := (a * b) % WORDS;
    WrapShows(a, b);
    return if p / a != b then SIZE_MAX else p;
  }

  lemma AtLeast(a: nat, b: nat)
    requires a > 0 && b > 0
    ensures a * b >= a && a * b >= b
  {
  }

  /** Dividing the wrapped product back shows exactly whether it wrapped. */
  lemma WrapShows(a: nat, b: nat)
    requires a > 0
    ensures ((a * b) % WORDS) / a == b <==> a * b < WORDS
  {
    var p := (a * b) % WORDS;
    if a * b < WORDS {
      assert p == a * b;
      DivMul(a, b);
    } else {
      assert p < a * b;
      DivBelow(a, b, p);
    }
  }

  lemma {:induction false} MulGap(a: nat, b: nat, q: nat)
    requires q < b
    ensures a * q + a <= a * b
    decreases b - q
  {
    assert a * (q + 1) == a * q + a;
    if q + 1 < b {
      MulGap(a, b, q + 1);
    }
  }

  lemma DivMul(a: nat, b: nat)
    requires a > 0
    ensures (a * b) / a == b
  {
    var q, m := (a * b) / a, (a * b) % a;
    assert a * q + m == a * b;
    if q < b {
      MulGap(a, b, q);
    } else if b < q {
      MulGap(a, q, b);
    }
  }

  lemma DivBelow(a: nat, b: nat, p: nat)
    requires a > 0 && p < a * b
    ensures p / a < b
  {
    var q, m := p / a, p % a;
    assert a * q + m == p;
    if b < q {
      MulGap(a, q, b);
    }
  }

  lemma ClampMul(a: nat, b: nat)
    requires a > 0 && b > 0
    ensures Clamp(Clamp(a) * Clamp(b)) == Clamp(a * b)
  {
    if a >= SIZE_MAX {
      AtLeast(SIZE_MAX, Clamp(b));
      AtLeast(a, b);
    } else if b >= SIZE_MAX {
      AtLeast(a, SIZE_MAX);
      AtLeast(a, b);
    }
  }

  // ---- the stack machine

  /** The steps a node costs, its siblings left out. */
  function Work(x: Bin): (n: nat)
    ensures x.Bin? ==> n > 0
    decreases x, 1
  {
    if x.Nil? then 0 else 2 + ChainWork(x.l)
  }

  function ChainWork(c: Bin): nat
    decreases c, 2
  {
    if c.Nil? then 0 else Work(c) + ChainWork(c.r)
  }

  type Frame = (Bin, bool)

  function Left(st: seq<Frame>): nat {
    if st == [] then 0 else Left(st[..|st| - 1]) + if st[|st| - 1].1 then 1 else Work(st[|st| - 1].0)
  }

  predicate InChain(c: Bin, x: Bin) {
    c.Bin? && (c == x || InChain(c.r, x))
  }

  ghost predicate Waiting(st: seq<Frame>, i: nat, x: Bin) {
    exists j :: i < j < |st| && st[j].0 == x
  }

  /** A node whose children were pushed finds each of them counted, or still above it on the stack. */
  ghost predicate StackOK(st: seq<Frame>, cnt: map<Bin, Word>) {
    && (forall i :: 0 <= i < |st| ==> st[i].0.Bin?)
    && (forall i, x :: 0 <= i < |st| && st[i].1 && InChain(st[i].0.l, x) ==> x in cnt || Waiting(st, i, x))
  }

  ghost predicate MemoOK(amb: int, cnt: map<Bin, Word>) {
    forall x :: x in cnt ==> x.Bin? && cnt[x] == Clamp(Count(amb, x))
  }

  lemma PopKeeps(st: seq<Frame>, cnt: map<Bin, Word>, cnt': map<Bin, Word>)
    requires st != [] && StackOK(st, cnt)
    requires st[|st| - 1].0 in cnt' && forall x :: x in cnt ==> x in cnt'
    ensures StackOK(st[..|st| - 1], cnt')
  {
    var s := st[..|st| - 1];
    forall i, x | 0 <= i < |s| && s[i].1 && InChain(s[i].0.l, x) ensures x in cnt' || Waiting(s, i, x) {
      assert st[i] == s[i];
      if x !in cnt && x != st[|st| - 1].0 {
        var j :| i < j < |st| && st[j].0 == x;
        assert s[j].0 == x;
      }
    }
  }

  lemma {:induction false} LeftAppend(a: seq<Frame>, x: Bin)
    ensures Left(a + [(x, false)]) == Left(a) + Work(x)
    ensures Left(a + [(x, true)]) == Left(a) + 1
  {
    assert (a + [(x, false)])[..|a|] == a && (a + [(x, true)])[..|a|] == a;
  }

  /** Marks the top node as opened and pushes those of its children that have no count yet. */
  method PushChildren(st: seq<Frame>, cnt: map<Bin, Word>) returns (st': seq<Frame>)
    requires st != [] && StackOK(st, cnt) && !st[|st| - 1].1
    ensures StackOK(st', cnt) && Left(st') < Left(st) && |st'| >= |st|
    ensures st'[..|st|] == st[..|st| - 1] + [(st[|st| - 1].0, true)]
  {
    var base, x := st[..|st| - 1], st[|st| - 1].0;
    st' := base + [(x, true)];
    LeftAppend(base, x);
    var c := x.l;
    while c.Bin?
      invariant |st'| >= |st| && st'[..|st|] == base + [(x, true)]
      invariant forall i :: |st| <= i < |st'| ==> st'[i].0.Bin? && !st'[i].1
      invariant Left(st') + ChainWork(c) <= Left(base) + 1 + ChainWork(x.l)
      invariant forall y :: InChain(x.l, y) ==> InChain(c, y) || y in cnt || Waiting(st', |st| - 1, y)
      decreases c
    {
      ghost var was := st';
      if c !in cnt {
        LeftAppend(st', c);
        st' := st' + [(c, false)];
        assert st'[|was|].0 == c;
      }
      forall y | InChain(x.l, y) ensures InChain(c.r, y) || y in cnt || Waiting(st', |st| - 1, y) {
        if Waiting(was, |st| - 1, y) {
          var j :| |st| - 1 < j < |was| && was[j].0 == y;
          assert st'[j].0 == y;
        }
      }
      c := c.r;
    }
    PushedOK(st, st', cnt);
  }

  lemma PushedOK(st: seq<Frame>, st': seq<Frame>, cnt: map<Bin, Word>)
    requires st != [] && StackOK(st, cnt)
    requires |st'| >= |st| && st'[..|st|] == st[..|st| - 1] + [(st[|st| - 1].0, true)]
    requires forall i :: |st| <= i < |st'| ==> st'[i].0.Bin? && !st'[i].1
    requires forall y :: InChain(st[|st| - 1].0.l, y) ==> y in cnt || Waiting(st', |st| - 1, y)
    ensures StackOK(st', cnt)
  {
    forall i | 0 <= i < |st| ensures st'[i].0 == st[i].0 && (i < |st| - 1 ==> st'[i] == st[i]) {
      assert st'[i] == st'[..|st|][i];
    }
    forall i, y | 0 <= i < |st'| && st'[i].1 && InChain(st'[i].0.l, y) ensures y in cnt || Waiting(st', i, y) {
      if i < |st| - 1 && y !in cnt {
        var j :| i < j < |st| && st[j].0 == y;
        assert st'[j].0 == y;
      }
    }
  }

  method AddUp(amb: int, x: Bin, cnt: map<Bin, Word>) returns (acc: Word)
    requires MemoOK(amb, cnt) && forall y :: InChain(x, y) ==> y in cnt
    ensures acc == Clamp(Sum(amb, x))
  {
    acc := 0;
    var c := x;
    ghost var done: nat := 0;
    while c.Bin?
      invariant acc == Clamp(done) && done + Sum(amb, c) == Sum(amb, x)
      invariant forall y :: InChain(c, y) ==> y in cnt
      decreases c
    {
      assert InChain(c, c);
      acc := SatAdd(acc, cnt[c]);
      done := done + Count(amb, c);
      assert forall y :: InChain(c.r, y) ==> InChain(c, y);
      c := c.r;
    }
  }

  method MultiplyUp(amb: int, x: Bin, cnt: map<Bin, Word>) returns (acc: Word)
    requires MemoOK(amb, cnt) && forall y :: InChain(x, y) ==> y in cnt
    ensures acc == Clamp(Product(amb, x))
  {
    acc := 1;
    var c := x;
    ghost var done: nat := 1;
    while c.Bin?
      invariant done > 0 && acc == Clamp(done) && done * Product(amb, c) == Product(amb, x)
      invariant forall y :: InChain(c, y) ==> y in cnt
      decreases c
    {
      assert InChain(c, c);
      ClampMul(done, Count(amb, c));
      acc := SatMul(acc, cnt[c]);
      Regroup(done, Count(amb, c), Product(amb, c.r));
      done := done * Count(amb, c);
      assert forall y :: InChain(c.r, y) ==> InChain(c, y);
      c := c.r;
    }
  }

  lemma Regroup(a: nat, b: nat, c: nat)
    ensures (a * b) * c == a * (b * c)
    ensures a > 0 && b > 0 ==> a * b > 0
  {
  }

  /** The count of one node whose children are counted. */
  method CountNode(amb: int, x: Bin, cnt: map<Bin, Word>) returns (acc: Word)
    requires x.Bin? && MemoOK(amb, cnt) && forall y :: InChain(x.l, y) ==> y in cnt
    ensures acc == Clamp(Count(amb, x))
  {
    if x.l.Nil? {
      acc := 1;
    } else if x.lit == amb {
      acc := AddUp(amb, x.l, cnt);
    } else {
      acc := MultiplyUp(amb, x.l, cnt);
    }
  }

  /** The count saturates: it is the true number, or the largest word when the number does not fit below it. */
  method CountParses(amb: int, n: Bin) returns (r: Word)
    ensures r == if n.Nil? then 1 else Clamp(Count(amb, n))
    ensures !n.Nil? ==>
              if Count(amb, n) < 0xFFFF_FFFF_FFFF_FFFF then r == Count(amb, n) else r == 0xFFFF_FFFF_FFFF_FFFF
  {
    hide Count, Left;
    if n.Nil? {
      return 1;
    }
    var cnt: map<Bin, Word> := map[];
    var st: seq<Frame> := [(n, false)];
    while st != []
      invariant StackOK(st, cnt) && MemoOK(amb, cnt)
      invariant n in cnt || (st != [] && st[0].0 == n)
      decreases Left(st)
    {
      var (x, pushed) := st[|st| - 1];
      LeftPops(st);
      if x in cnt {
        PopKeeps(st, cnt, cnt);
        st := st[..|st| - 1];
        continue;
      }
      if !pushed {
        ghost var was := st;
        st := PushChildren(st, cnt);
        assert st[0] == st[..|was|][0];
        continue;
      }
      assert forall y :: InChain(x.l, y) ==> y in cnt || Waiting(st, |st| - 1, y);
      var acc := CountNode(amb, x, cnt);
      PopKeeps(st, cnt, cnt[x := acc]);
      st := st[..|st| - 1];
      cnt := cnt[x := acc];
    }
    return cnt[n];
  }

  lemma LeftPops(st: seq<Frame>)
    requires st != [] && st[|st| - 1].0.Bin?
    ensures Left(st[..|st| - 1]) < Left(st)
  {
  }
}
