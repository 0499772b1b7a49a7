/** Chart items, the rules that derive them, and the least set closed under those rules.

    `Reach` is the textbook closure: predict, scan, class scan, null and complete, nothing memoized
    and nothing skipped. It is what the chart machine is measured against. */
module EarleyItems {
  import opened Grammars

  /** Production `prod` started at `from`; its first `dot` literals end at set `at`. */
  datatype Item = Item(at: nat, prod: nat, from: nat, dot: nat)

  function CharAt(w: seq<int>, eof: int, n: nat): int {
    if n < |w| then w[n] else eof
  }

  ghost predicate Fits(prods: seq<Prod>, x: Item) {
    x.prod < |prods| && x.dot <= |prods[x.prod].body|
  }

  ghost predicate Completed(prods: seq<Prod>, x: Item) {
    Fits(prods, x) && x.dot == |prods[x.prod].body|
  }

  /** `x` waits for literal `l`. */
  ghost predicate WaitsFor(prods: seq<Prod>, x: Item, l: Lit) {
    Fits(prods, x) && x.dot < |prods[x.prod].body| && prods[x.prod].body[x.dot] == l
  }

  function Advance(x: Item, at: nat): Item {
    x.(at := at, dot := x.dot + 1)
  }

  /** One character of lookahead: can a body that starts like this begin with `ch`? */
  predicate FirstCanMatch(g: Grammar, body: seq<Lit>, ch: int) {
    if body == [] then true
    else match body[0]
      case Null => true
      case T(c) => c == ch
      case NT(n) => n in g.classes ==> ch in g.classes[n]
  }

  // ---- closure rules; `look` turns the lookahead on

  ghost predicate ClosedInit(g: Grammar, C: iset<Item>) {
    forall p :: 0 <= p < |g.prods| && g.prods[p].head == g.start ==> Item(0, p, 0, 0) in C
  }

  ghost predicate ClosedPredict(g: Grammar, w: seq<int>, eof: int, look: bool, C: iset<Item>) {
    forall x, p :: x in C && 0 <= p < |g.prods| && g.prods[p].head !in g.classes
                   && WaitsFor(g.prods, x, NT(g.prods[p].head))
                   && (look ==> FirstCanMatch(g, g.prods[p].body, CharAt(w, eof, x.at))) ==>
                     Item(x.at, p, x.at, 0) in C
  }

  ghost predicate ClosedScan(g: Grammar, w: seq<int>, C: iset<Item>) {
    forall x :: x in C && x.at < |w| && WaitsFor(g.prods, x, T(w[x.at])) ==> Advance(x, x.at + 1) in C
  }

  ghost predicate ClosedClass(g: Grammar, w: seq<int>, C: iset<Item>) {
    forall x, n :: x in C && x.at < |w| && n in g.classes && WaitsFor(g.prods, x, NT(n)) && w[x.at] in g.classes[n] ==>
                     Advance(x, x.at + 1) in C
  }

  /** `x` waits for `null`, and was not put where it is by scanning a terminal: a scanned item goes straight into
      the next set, where nothing steps over `null`. */
  ghost predicate StepsOverNull(prods: seq<Prod>, x: Item) {
    WaitsFor(prods, x, Null) && !Behind(prods[x.prod].body, x.dot)
  }

  ghost predicate ClosedNull(g: Grammar, C: iset<Item>) {
    forall x :: x in C && StepsOverNull(g.prods, x) ==> Advance(x, x.at) in C
  }

  ghost predicate ClosedComplete(g: Grammar, C: iset<Item>) {
    forall x, e :: x in C && e in C && Completes(g, e, x) ==> Advance(x, e.at) in C
  }

  /** The completed item `e` spans exactly what `x` waits for next. */
  ghost predicate Completes(g: Grammar, e: Item, x: Item) {
    Completed(g.prods, e) && e.from == x.at && g.prods[e.prod].head !in g.classes
    && WaitsFor(g.prods, x, NT(g.prods[e.prod].head))
  }

  ghost predicate Closed(g: Grammar, w: seq<int>, eof: int, look: bool, C: iset<Item>) {
    && ClosedInit(g, C) && ClosedPredict(g, w, eof, look, C) && ClosedScan(g, w, C)
    && ClosedClass(g, w, C) && ClosedNull(g, C) && ClosedComplete(g, C)
  }

  /** The least closed set: what every closed set contains. */
  ghost predicate Reach(g: Grammar, w: seq<int>, eof: int, look: bool, x: Item) {
    forall C :: Closed(g, w, eof, look, C) ==> x in C
  }

  ghost function Reached(g: Grammar, w: seq<int>, eof: int, look: bool): iset<Item> {
    iset x | Reach(g, w, eof, look, x)
  }

  /** The intersection of all closed sets is itself closed. */
  lemma ReachedIsClosed(g: Grammar, w: seq<int>, eof: int, look: bool)
    ensures Closed(g, w, eof, look, Reached(g, w, eof, look))
  {
    var R := Reached(g, w, eof, look);
    assert forall C :: Closed(g, w, eof, look, C) ==> R <= C;
    assert ClosedComplete(g, R) by {
      forall x, e | x in R && e in R && Completes(g, e, x) ensures Advance(x, e.at) in R {
        forall C | Closed(g, w, eof, look, C) ensures Advance(x, e.at) in C {
          assert x in C && e in C;
        }
      }
    }
    assert ClosedPredict(g, w, eof, look, R);
    assert ClosedClass(g, w, R);
  }

  // The closure rules, one step at a time.

  lemma ReachInit(g: Grammar, w: seq<int>, eof: int, look: bool, p: nat)
    requires p < |g.prods| && g.prods[p].head == g.start
    ensures Reach(g, w, eof, look, Item(0, p, 0, 0))
  {
    ReachedIsClosed(g, w, eof, look);
    assert Item(0, p, 0, 0) in Reached(g, w, eof, look);
  }

  lemma ReachPredict(g: Grammar, w: seq<int>, eof: int, look: bool, x: Item, p: nat)
    requires Reach(g, w, eof, look, x) && p < |g.prods| && g.prods[p].head !in g.classes
    requires WaitsFor(g.prods, x, NT(g.prods[p].head))
    requires look ==> FirstCanMatch(g, g.prods[p].body, CharAt(w, eof, x.at))
    ensures Reach(g, w, eof, look, Item(x.at, p, x.at, 0))
  {
    ReachedIsClosed(g, w, eof, look);
    assert x in Reached(g, w, eof, look);
    assert Item(x.at, p, x.at, 0) in Reached(g, w, eof, look);
  }

  lemma ReachScan(g: Grammar, w: seq<int>, eof: int, look: bool, x: Item)
    requires Reach(g, w, eof, look, x) && x.at < |w|
    requires || WaitsFor(g.prods, x, T(w[x.at]))
             || exists n :: n in g.classes && WaitsFor(g.prods, x, NT(n)) && w[x.at] in g.classes[n]
    ensures Reach(g, w, eof, look, Advance(x, x.at + 1))
  {
    ReachedIsClosed(g, w, eof, look);
    assert x in Reached(g, w, eof, look);
    assert Advance(x, x.at + 1) in Reached(g, w, eof, look);
  }

  lemma ReachNull(g: Grammar, w: seq<int>, eof: int, look: bool, x: Item)
    requires Reach(g, w, eof, look, x) && StepsOverNull(g.prods, x)
    ensures Reach(g, w, eof, look, Advance(x, x.at))
  {
    ReachedIsClosed(g, w, eof, look);
    assert x in Reached(g, w, eof, look);
    assert Advance(x, x.at) in Reached(g, w, eof, look);
  }

  lemma ReachComplete(g: Grammar, w: seq<int>, eof: int, look: bool, x: Item, e: Item)
    requires Reach(g, w, eof, look, x) && Reach(g, w, eof, look, e) && Completes(g, e, x)
    ensures Reach(g, w, eof, look, Advance(x, e.at))
  {
    ReachedIsClosed(g, w, eof, look);
    assert x in Reached(g, w, eof, look) && e in Reached(g, w, eof, look);
    assert Advance(x, e.at) in Reached(g, w, eof, look);
  }

  // ---- which predictions are made

  /** With one character of lookahead, an item is predicted exactly when it starts the parse, or an item of its set
      waits for its head and its body is empty or begins with `null`, with that character, with a class that has it,
      or with a nonterminal of the grammar. */
  lemma PredictedExactly(g: Grammar, w: seq<int>, eof: int, p: nat, k: nat)
    requires p < |g.prods|
    ensures Reach(g, w, eof, true, Item(k, p, k, 0)) <==>
              (k == 0 && g.prods[p].head == g.start)
              || (AwaitedAt(g, w, eof, p, k) && CanBegin(g, g.prods[p].body, if k < |w| then w[k] else eof))
  {
    hide Reach;
    var x := Item(k, p, k, 0);
    if k == 0 && g.prods[p].head == g.start {
      ReachInit(g, w, eof, true, p);
    } else if AwaitedAt(g, w, eof, p, k) && CanBegin(g, g.prods[p].body, CharAt(w, eof, k)) {
      var y :| Reach(g, w, eof, true, y) && y.at == k && WaitsFor(g.prods, y, NT(g.prods[p].head));
      ReachPredict(g, w, eof, true, y, p);
    } else {
      OnlyPredicted(g, w, eof, p, k);
    }
  }

  ghost predicate AwaitedAt(g: Grammar, w: seq<int>, eof: int, p: nat, k: nat)
    requires p < |g.prods|
  {
    && g.prods[p].head !in g.classes
    && exists y :: Reach(g, w, eof, true, y) && y.at == k && WaitsFor(g.prods, y, NT(g.prods[p].head))
  }

  ghost predicate CanBegin(g: Grammar, body: seq<Lit>, ch: int) {
    || body == [] || body[0] == Null || body[0] == T(ch)
    || exists n :: body[0] == NT(n) && (n !in g.classes || ch in g.classes[n])
  }

  lemma OnlyPredicted(g: Grammar, w: seq<int>, eof: int, p: nat, k: nat)
    requires p < |g.prods| && !(k == 0 && g.prods[p].head == g.start)
    requires !(AwaitedAt(g, w, eof, p, k) && CanBegin(g, g.prods[p].body, CharAt(w, eof, k)))
    ensures !Reach(g, w, eof, true, Item(k, p, k, 0))
  {
    hide Closed, Reach;
    ReachedIsClosed(g, w, eof, true);
    var x := Item(k, p, k, 0);
    var R := Reached(g, w, eof, true);
    forall y | y in R && g.prods[p].head !in g.classes && WaitsFor(g.prods, y, NT(g.prods[p].head)) && y.at == k
      ensures !FirstCanMatch(g, g.prods[p].body, CharAt(w, eof, k))
    {
      assert AwaitedAt(g, w, eof, p, k);
    }
    SmallerIsClosed(g, w, eof, p, k, R);
    NotInSmaller(g, w, eof, x, iset y | y in R && y != x);
  }

  lemma SmallerIsClosed(g: Grammar, w: seq<int>, eof: int, p: nat, k: nat, R: iset<Item>)
    requires p < |g.prods| && !(k == 0 && g.prods[p].head == g.start) && Closed(g, w, eof, true, R)
    requires forall y :: y in R && y.at == k && g.prods[p].head !in g.classes
                         && WaitsFor(g.prods, y, NT(g.prods[p].head)) ==>
                           !FirstCanMatch(g, g.prods[p].body, CharAt(w, eof, k))
    ensures Closed(g, w, eof, true, iset y | y in R && y != Item(k, p, k, 0))
  {
    hide WaitsFor, FirstCanMatch, CharAt, Completes, StepsOverNull;
    var x := Item(k, p, k, 0);
    var C := iset y | y in R && y != x;
    assert ClosedInit(g, C);
    assert ClosedScan(g, w, C);
    assert ClosedClass(g, w, C);
    assert ClosedNull(g, C);
    assert ClosedComplete(g, C);
    forall y, q | y in C && 0 <= q < |g.prods| && g.prods[q].head !in g.classes
           && WaitsFor(g.prods, y, NT(g.prods[q].head)) && FirstCanMatch(g, g.prods[q].body, CharAt(w, eof, y.at))
      ensures Item(y.at, q, y.at, 0) in C
    {
      assert Item(y.at, q, y.at, 0) in R;
    }
    assert ClosedPredict(g, w, eof, true, C);
  }

  lemma NotInSmaller(g: Grammar, w: seq<int>, eof: int, x: Item, C: iset<Item>)
    requires Closed(g, w, eof, true, C) && x !in C
    ensures !Reach(g, w, eof, true, x)
  {
  }

  // ---- soundness: a reached item's prefix derives its span

  /** The live part of the grammar derives the span with the item's first literals, and no `null` among them stands
      right after a terminal. */
  ghost predicate ItemDerives(g: Grammar, w: seq<int>, x: Item) {
    && Fits(g.prods, x) && g.prods[x.prod].head !in g.classes && x.from <= x.at <= |w|
    && PrefixDerives(Live(g), w, g.prods[x.prod].body, x.dot, x.from, x.at) && Clear(g.prods[x.prod].body, x.dot)
  }

  lemma AdvanceDerives(g: Grammar, w: seq<int>, x: Item, l: Lit, j: nat)
    requires ItemDerives(g, w, x) && WaitsFor(g.prods, x, l) && Derives(Live(g), w, l, x.at, j)
    requires l.Null? ==> StepsOverNull(g.prods, x)
    ensures ItemDerives(g, w, Advance(x, j))
  {
    hide Live;
    Extend(Live(g), w, g.prods[x.prod].body, x.dot, x.from, x.at, j);
    var h :| LitIn(Live(g), w, h, l, x.at, j);
    SpanOrder(Live(g), w, h, l, x.at, j);
  }

  lemma ItemsStart(g: Grammar, w: seq<int>, p: nat, at: nat)
    requires p < |g.prods| && g.prods[p].head !in g.classes && at <= |w|
    ensures ItemDerives(g, w, Item(at, p, at, 0))
  {
    assert PrefixIn(Live(g), w, 0, g.prods[p].body, 0, at, at);
  }

  /** A completed sound item derives its head. */
  lemma CompletedDerives(g: Grammar, w: seq<int>, e: Item)
    requires ItemDerives(g, w, e) && Completed(g.prods, e)
    ensures Derives(Live(g), w, NT(g.prods[e.prod].head), e.from, e.at)
  {
    var q := LiveProdIn(g, e.prod);
    Reduce(Live(g), w, q, e.from, e.at);
  }

  /** Every reached item is sound. */
  lemma ReachIsSound(g: Grammar, w: seq<int>, eof: int, look: bool, x: Item)
    requires g.start !in g.classes && Reach(g, w, eof, look, x)
    ensures ItemDerives(g, w, x)
  {
    var C := iset y | ItemDerives(g, w, y);
    SoundIsClosed(g, w, eof, look, C);
    assert x in C;
  }

  lemma SoundIsClosed(g: Grammar, w: seq<int>, eof: int, look: bool, C: iset<Item>)
    requires g.start !in g.classes && C == iset y | ItemDerives(g, w, y)
    ensures Closed(g, w, eof, look, C)
  {
    hide ItemDerives, Live;
    forall p, at: nat | 0 <= p < |g.prods| && g.prods[p].head !in g.classes && at <= |w|
      ensures Item(at, p, at, 0) in C
    {
      ItemsStart(g, w, p, at);
    }
    forall y | y in C ensures y.at <= |w| && Fits(g.prods, y) {
      SoundFits(g, w, y);
    }
    assert ClosedScan(g, w, C) by {
      forall y | y in C && y.at < |w| && WaitsFor(g.prods, y, T(w[y.at])) ensures Advance(y, y.at + 1) in C {
        assert LitIn(Live(g), w, 0, T(w[y.at]), y.at, y.at + 1);
        AdvanceDerives(g, w, y, T(w[y.at]), y.at + 1);
      }
    }
    assert ClosedClass(g, w, C) by {
      forall y, n | y in C && y.at < |w| && n in g.classes && WaitsFor(g.prods, y, NT(n)) && w[y.at] in g.classes[n]
        ensures Advance(y, y.at + 1) in C
      {
        ClassDerives(g, w, n, y.at);
        AdvanceDerives(g, w, y, NT(n), y.at + 1);
      }
    }
    assert ClosedNull(g, C) by {
      forall y | y in C && StepsOverNull(g.prods, y) ensures Advance(y, y.at) in C {
        assert LitIn(Live(g), w, 0, Null, y.at, y.at);
        AdvanceDerives(g, w, y, Null, y.at);
      }
    }
    assert ClosedComplete(g, C) by {
      forall y, e | y in C && e in C && Completes(g, e, y) ensures Advance(y, e.at) in C {
        CompletedDerives(g, w, e);
        AdvanceDerives(g, w, y, NT(g.prods[e.prod].head), e.at);
      }
    }
  }

  lemma SoundFits(g: Grammar, w: seq<int>, y: Item)
    requires ItemDerives(g, w, y)
    ensures y.at <= |w| && Fits(g.prods, y)
  {
  }

  lemma ClassDerives(g: Grammar, w: seq<int>, n: nat, i: nat)
    requires n in g.classes && i < |w| && w[i] in g.classes[n]
    ensures Derives(Live(g), w, NT(n), i, i + 1)
  {
    assert LitIn(Live(g), w, 0, NT(n), i, i + 1);
  }

  // ---- completeness: every derivation is reached

  /** A derived body can start with the character at its first position, so lookahead never prunes it. */
  lemma {:induction false} DerivedCanMatch(g: Grammar, w: seq<int>, eof: int, h: nat, body: seq<Lit>, d: nat, i: nat,
          j: nat)
    requires 0 < d <= |body| && PrefixIn(Live(g), w, h, body, d, i, j)
    ensures FirstCanMatch(g, body, CharAt(w, eof, i))
    decreases d
  {
    assert StepIn(Live(g), w, h, body, d - 1, i, j);
    var k: nat :| PrefixIn(Live(g), w, h, body, d - 1, i, k) && LitIn(Live(g), w, h, body[d - 1], k, j);
    if d > 1 {
      DerivedCanMatch(g, w, eof, h, body, d - 1, i, k);
    }
  }

  lemma {:induction false} ReachPrefix(g: Grammar, w: seq<int>, eof: int, look: bool, h: nat, p: nat, d: nat, i: nat,
          j: nat)
    requires p < |g.prods| && d <= |g.prods[p].body| && Clear(g.prods[p].body, d)
    requires Reach(g, w, eof, look, Item(i, p, i, 0)) && PrefixIn(Live(g), w, h, g.prods[p].body, d, i, j)
    ensures Reach(g, w, eof, look, Item(j, p, i, d))
    decreases h, d + 1
  {
    hide Reach, Live;
    if d > 0 {
      var body := g.prods[p].body;
      assert StepIn(Live(g), w, h, body, d - 1, i, j);
      var k: nat :| PrefixIn(Live(g), w, h, body, d - 1, i, k) && LitIn(Live(g), w, h, body[d - 1], k, j);
      ReachPrefix(g, w, eof, look, h, p, d - 1, i, k);
      ReachLit(g, w, eof, look, h, Item(k, p, i, d - 1), body[d - 1], j);
    }
  }

  lemma {:induction false} ReachLit(g: Grammar, w: seq<int>, eof: int, look: bool, h: nat, x: Item, l: Lit, j: nat)
    requires Reach(g, w, eof, look, x) && WaitsFor(g.prods, x, l) && LitIn(Live(g), w, h, l, x.at, j)
    requires l.Null? ==> StepsOverNull(g.prods, x)
    ensures Reach(g, w, eof, look, Advance(x, j))
    decreases h, 0
  {
    hide Reach;
    match l
    case Null => ReachNull(g, w, eof, look, x);
    case T(c) => ReachScan(g, w, eof, look, x);
    case NT(n) =>
      if n in g.classes {
        ReachScan(g, w, eof, look, x);
      } else {
        var p := LiveAlternative(g, w, h, n, x.at, j);
        if g.prods[p].body != [] {
          DerivedCanMatch(g, w, eof, h - 1, g.prods[p].body, |g.prods[p].body|, x.at, j);
        }
        ReachPredict(g, w, eof, look, x, p);
        ReachPrefix(g, w, eof, look, h - 1, p, |g.prods[p].body|, x.at, j);
        ReachComplete(g, w, eof, look, x, Item(j, p, x.at, |g.prods[p].body|));
      }
  }

  /** The production of the whole grammar that a live derivation begins with. */
  lemma LiveAlternative(g: Grammar, w: seq<int>, h: nat, n: nat, i: nat, j: nat) returns (p: nat)
    requires n !in g.classes && LitIn(Live(g), w, h, NT(n), i, j)
    ensures h > 0 && p < |g.prods| && g.prods[p].head == n && Clear(g.prods[p].body, |g.prods[p].body|)
    ensures PrefixIn(Live(g), w, h - 1, g.prods[p].body, |g.prods[p].body|, i, j)
  {
    var L := Live(g);
    var q: nat :| q < |L.prods| && L.prods[q].head == n
        && PrefixIn(L, w, h - 1, L.prods[q].body, |L.prods[q].body|, i, j);
    p := LiveProdFrom(g, q);
  }

  /** Production `p` of the start symbol, completed over the whole input. */
  function WholeItem(g: Grammar, w: seq<int>, p: nat): Item
    requires p < |g.prods|
  {
    Item(|w|, p, 0, |g.prods[p].body|)
  }

  ghost predicate Accepts(g: Grammar, w: seq<int>, eof: int, look: bool) {
    exists p :: 0 <= p < |g.prods| && g.prods[p].head == g.start && Reach(g, w, eof, look, WholeItem(g, w, p))
  }

  /** The closure accepts exactly the inputs the start symbol derives in the live part of the grammar, with or
      without lookahead. */
  lemma ReachAcceptsExactly(g: Grammar, w: seq<int>, eof: int, look: bool)
    requires g.start !in g.classes
    ensures Accepts(g, w, eof, look) <==> Derives(Live(g), w, NT(g.start), 0, |w|)
  {
    hide Reach, Live;
    if Accepts(g, w, eof, look) {
      var p :| 0 <= p < |g.prods| && g.prods[p].head == g.start && Reach(g, w, eof, look, WholeItem(g, w, p));
      ReachIsSound(g, w, eof, look, WholeItem(g, w, p));
      CompletedDerives(g, w, WholeItem(g, w, p));
    }
    if Derives(Live(g), w, NT(g.start), 0, |w|) {
      DerivedIsAccepted(g, w, eof, look);
    }
  }

  lemma DerivedIsAccepted(g: Grammar, w: seq<int>, eof: int, look: bool)
    requires g.start !in g.classes && Derives(Live(g), w, NT(g.start), 0, |w|)
    ensures Accepts(g, w, eof, look)
  {
    hide Reach, Live;
    var h: nat :| LitIn(Live(g), w, h, NT(g.start), 0, |w|);
    var p := LiveAlternative(g, w, h, g.start, 0, |w|);
    ReachInit(g, w, eof, look, p);
    ReachPrefix(g, w, eof, look, h - 1, p, |g.prods[p].body|, 0, |w|);
    assert Reach(g, w, eof, look, WholeItem(g, w, p));
  }

  /** Advancing an item over a nullable literal, as `add` does, never leaves the closure. */
  lemma NullableAdvanceReached(g: Grammar, w: seq<int>, eof: int, look: bool, x: Item, l: Lit)
    requires ClassesNotNullable(g)
    requires Reach(g, w, eof, look, x) && WaitsFor(g.prods, x, l) && NullableLit(g, l)
    requires l.Null? ==> StepsOverNull(g.prods, x)
    ensures Reach(g, w, eof, look, Advance(x, x.at))
  {
    hide Reach, Live, Nullable;
    if l.NT? {
      LiveNullableDerives(g, w, l.n, x.at);
      var h :| LitIn(Live(g), w, h, l, x.at, x.at);
      ReachLit(g, w, eof, look, h, x, l, x.at);
    } else {
      ReachLit(g, w, eof, look, 0, x, l, x.at);
    }
  }

  lemma LiveNullableDerives(g: Grammar, w: seq<int>, n: nat, i: nat)
    requires ClassesNotNullable(g)
    ensures Nullable(g, n) <==> Derives(Live(g), w, NT(n), i, i)
  {
    forall m ensures Nullable(g, m) <==> Nullable(Live(g), m) {
      SameNullables(g, m);
    }
    hide Nullable;
    NullableIsExact(Live(g), w, n, i);
  }

  /** A reached empty completion is one of a nullable nonterminal. */
  lemma EmptyCompletionIsNullable(g: Grammar, w: seq<int>, eof: int, look: bool, e: Item)
    requires ClassesNotNullable(g)
    requires g.start !in g.classes && Reach(g, w, eof, look, e) && Completed(g.prods, e) && e.from == e.at
    ensures Nullable(g, g.prods[e.prod].head)
  {
    hide Reach, Live, Nullable;
    ReachIsSound(g, w, eof, look, e);
    CompletedDerives(g, w, e);
    LiveNullableDerives(g, w, g.prods[e.prod].head, e.at);
  }

  // ---- lookahead is transparent

  /** A predicted item that one character of lookahead skips. */
  ghost predicate Skipped(g: Grammar, w: seq<int>, eof: int, x: Item) {
    && x.prod < |g.prods| && x.dot == 0 && x.from == x.at
    && !FirstCanMatch(g, g.prods[x.prod].body, CharAt(w, eof, x.at))
    && g.prods[x.prod].head !in g.classes
    && exists y :: Reach(g, w, eof, true, y) && y.at == x.at && WaitsFor(g.prods, y, NT(g.prods[x.prod].head))
  }

  ghost function WithSkipped(g: Grammar, w: seq<int>, eof: int): iset<Item> {
    iset y | Reach(g, w, eof, true, y) || Skipped(g, w, eof, y)
  }

  /** A skipped prediction never moves: it starts with a character that is not there. */
  lemma SkippedIsStuck(g: Grammar, w: seq<int>, eof: int, x: Item)
    requires Skipped(g, w, eof, x)
    ensures !Completed(g.prods, x) && !WaitsFor(g.prods, x, Null)
    ensures forall n :: WaitsFor(g.prods, x, NT(n)) ==> n in g.classes
    ensures x.at < |w| ==> !WaitsFor(g.prods, x, T(w[x.at]))
    ensures x.at < |w| ==> forall n :: n in g.classes && WaitsFor(g.prods, x, NT(n)) ==> w[x.at] !in g.classes[n]
  {
  }

  lemma WithSkippedPredicts(g: Grammar, w: seq<int>, eof: int)
    ensures ClosedPredict(g, w, eof, false, WithSkipped(g, w, eof))
  {
    hide Reach;
    var D := WithSkipped(g, w, eof);
    forall y, p | y in D && 0 <= p < |g.prods| && g.prods[p].head !in g.classes
                  && WaitsFor(g.prods, y, NT(g.prods[p].head))
      ensures Item(y.at, p, y.at, 0) in D
    {
      if Skipped(g, w, eof, y) {
        SkippedIsStuck(g, w, eof, y);
      }
      if FirstCanMatch(g, g.prods[p].body, CharAt(w, eof, y.at)) {
        ReachPredict(g, w, eof, true, y, p);
      } else {
        assert Skipped(g, w, eof, Item(y.at, p, y.at, 0));
      }
    }
  }

  lemma WithSkippedIsClosed(g: Grammar, w: seq<int>, eof: int)
    ensures Closed(g, w, eof, false, WithSkipped(g, w, eof))
  {
    hide Reach;
    var D := WithSkipped(g, w, eof);
    forall y | y in D && Skipped(g, w, eof, y)
      ensures !Completed(g.prods, y) && !WaitsFor(g.prods, y, Null)
      ensures forall n :: WaitsFor(g.prods, y, NT(n)) ==> n in g.classes
      ensures y.at < |w| ==> !WaitsFor(g.prods, y, T(w[y.at]))
      ensures y.at < |w| ==> forall n :: n in g.classes && WaitsFor(g.prods, y, NT(n)) ==> w[y.at] !in g.classes[n]
    {
      SkippedIsStuck(g, w, eof, y);
    }
    WithSkippedPredicts(g, w, eof);
    assert ClosedInit(g, D) by {
      forall p | 0 <= p < |g.prods| && g.prods[p].head == g.start ensures Item(0, p, 0, 0) in D {
        ReachInit(g, w, eof, true, p);
      }
    }
    assert ClosedScan(g, w, D) by {
      forall y | y in D && y.at < |w| && WaitsFor(g.prods, y, T(w[y.at])) ensures Advance(y, y.at + 1) in D {
        ReachScan(g, w, eof, true, y);
      }
    }
    assert ClosedClass(g, w, D) by {
      forall y, n | y in D && y.at < |w| && n in g.classes && WaitsFor(g.prods, y, NT(n)) && w[y.at] in g.classes[n]
        ensures Advance(y, y.at + 1) in D
      {
        ReachScan(g, w, eof, true, y);
      }
    }
    assert ClosedNull(g, D) by {
      forall y | y in D && StepsOverNull(g.prods, y) ensures Advance(y, y.at) in D {
        ReachNull(g, w, eof, true, y);
      }
    }
    assert ClosedComplete(g, D) by {
      forall y, e | y in D && e in D && Completes(g, e, y) ensures Advance(y, e.at) in D {
        ReachComplete(g, w, eof, true, y, e);
      }
    }
  }

  /** Without lookahead the closure gains the skipped predictions and nothing else. */
  lemma LookaheadIsTransparent(g: Grammar, w: seq<int>, eof: int, x: Item)
    ensures Reach(g, w, eof, false, x) <==> Reach(g, w, eof, true, x) || Skipped(g, w, eof, x)
  {
    if Reach(g, w, eof, false, x) {
      WithSkippedIsClosed(g, w, eof);
      assert x in WithSkipped(g, w, eof);
    }
    if Reach(g, w, eof, true, x) {
      PrunedIsUnpruned(g, w, eof, x);
    }
    if Skipped(g, w, eof, x) {
      var y :| Reach(g, w, eof, true, y) && y.at == x.at && WaitsFor(g.prods, y, NT(g.prods[x.prod].head));
      PrunedIsUnpruned(g, w, eof, y);
      ReachPredict(g, w, eof, false, y, x.prod);
    }
  }

  lemma PrunedIsUnpruned(g: Grammar, w: seq<int>, eof: int, x: Item)
    requires Reach(g, w, eof, true, x)
    ensures Reach(g, w, eof, false, x)
  {
    forall C | Closed(g, w, eof, false, C) ensures x in C {
      assert Closed(g, w, eof, true, C);
    }
  }

  /** Pruned and unpruned closures have the same completed items. */
  lemma LookaheadKeepsCompletions(g: Grammar, w: seq<int>, eof: int, x: Item)
    requires Completed(g.prods, x)
    ensures Reach(g, w, eof, false, x) <==> Reach(g, w, eof, true, x)
  {
    if Skipped(g, w, eof, x) {
      SkippedIsStuck(g, w, eof, x);
    }
    LookaheadIsTransparent(g, w, eof, x);
  }
}
