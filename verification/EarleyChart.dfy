/** The recognizer's chart machine: one pass over the input that keeps its sets, waiting lists and
    memos in place, and what each step keeps of the closure it computes. */
module EarleyChart {
  import opened Options
  import opened Grammars
  import opened EarleyItems

  /** The grammar, the input, and the value the input reports past its end. */
  datatype Problem = Problem(g: Grammar, w: seq<int>, eof: int)

  /** `it` waits for nonterminal `nt`. */
  datatype Wait = Wait(nt: nat, it: Item)

  /** A snapshot of the machine's fields. `G` and `ps` grow as classes are scanned. */
  datatype State = State(G: seq<Prod>, ps: map<(nat, int), nat>, S: seq<seq<Item>>, t: seq<Item>,
                         cache: seq<seq<Wait>>, memo: map<Item, nat>)

  /** Where one position stands: its number, what scanning had put there, and what has been processed. */
  datatype Focus = Focus(n: nat, arrived: set<Item>, proc: set<Item>)

  function ToSet<A>(s: seq<A>): set<A> {
    set x | x in s
  }

  function Row<A>(rows: seq<seq<A>>, k: nat): seq<A> {
    if k < |rows| then rows[k] else []
  }

  function Items(st: State, k: nat): set<Item> {
    ToSet(Row(st.S, k))
  }

  /** The items of set `n`, inserted or still in `t`. */
  function Here(st: State, n: nat): set<Item> {
    Items(st, n) + ToSet(st.t)
  }

  ghost predicate Source(c: Problem, x: Item) {
    x.prod < |c.g.prods|
  }

  // ---- what the grammar side of the state holds

  /** Scanning compares `null` with the value 0, so no 0 is read where that would matter. */
  ghost predicate NoZeros(g: Grammar, w: seq<int>, eof: int) {
    NullsLead(g) || (eof != 0 && 0 !in w)
  }

  ghost predicate GrammarOK(c: Problem, st: State) {
    && WellFormed(c.g) && IsSentinel(c.eof) && NoZeros(c.g, c.w, c.eof)
    && |c.g.prods| <= |st.G| && st.G[..|c.g.prods|] == c.g.prods
    && (forall k :: k in st.ps ==> && k.0 in c.g.classes && k.1 in c.g.classes[k.0]
                                   && |c.g.prods| <= st.ps[k] < |st.G| && st.G[st.ps[k]] == Prod(k.0, [T(k.1)]))
    && (forall p :: |c.g.prods| <= p < |st.G| ==> st.G[p].head in c.g.classes)
  }

  /** Productions beyond the grammar's are those of classes. */
  lemma MoreIsClass(c: Problem, st: State)
    requires GrammarOK(c, st)
    ensures |st.G| == |c.g.prods| || st.G[|c.g.prods|].head in c.g.classes
  {
  }

  /** A completed one-character item of a class that some reached item waits for. */
  ghost predicate ClassItem(c: Problem, G: seq<Prod>, x: Item) {
    && |c.g.prods| <= x.prod < |G| && x.dot == 1 && x.at == x.from + 1 && x.from < |c.w|
    && G[x.prod].head in c.g.classes && c.w[x.from] in c.g.classes[G[x.prod].head]
    && G[x.prod] == Prod(G[x.prod].head, [T(c.w[x.from])])
    && exists y :: Reach(c.g, c.w, c.eof, true, y) && y.at == x.from && WaitsFor(c.g.prods, y, NT(G[x.prod].head))
  }

  ghost predicate Sound(c: Problem, G: seq<Prod>, x: Item) {
    if Source(c, x) then
      && x.dot <= |c.g.prods[x.prod].body| && c.g.prods[x.prod].head !in c.g.classes
      && x.from <= x.at <= |c.w| && Reach(c.g, c.w, c.eof, true, x)
    else ClassItem(c, G, x)
  }

  ghost predicate ItemsOK(c: Problem, st: State, n: nat) {
    && |st.S| <= n + 2
    && (forall k: nat, x :: x in Items(st, k) ==> x.at == k && Sound(c, st.G, x))
    && (forall x :: x in st.t ==> x.at == n && Source(c, x) && Sound(c, st.G, x))
  }

  /** Scanning leaves an item just behind a terminal it did not start at. */
  ghost predicate Arrival(c: Problem, x: Item) {
    && x.from < x.at
    && (Source(c, x) && x.dot <= |c.g.prods[x.prod].body| ==> x.dot > 0 && c.g.prods[x.prod].body[x.dot - 1].T?)
  }

  ghost predicate CacheOK(c: Problem, st: State, n: nat) {
    && |st.cache| <= n + 1
    && forall m: nat, e :: e in Row(st.cache, m) ==> e.it in Items(st, m) && WaitsFor(c.g.prods, e.it, NT(e.nt))
  }

  // ---- what processing the items of `D` at set `k` has established

  ghost predicate Predicted(c: Problem, k: nat, D: set<Item>, H: set<Item>) {
    forall x, p :: x in D && 0 <= p < |c.g.prods| && c.g.prods[p].head !in c.g.classes
                   && WaitsFor(c.g.prods, x, NT(c.g.prods[p].head))
                   && FirstCanMatch(c.g, c.g.prods[p].body, CharAt(c.w, c.eof, k)) ==>
                     Item(k, p, k, 0) in H
  }

  ghost predicate Scanned(c: Problem, k: nat, D: set<Item>, H1: set<Item>) {
    forall x :: x in D && k < |c.w| && WaitsFor(c.g.prods, x, T(c.w[k])) ==> Advance(x, k + 1) in H1
  }

  ghost predicate ClassScanned(c: Problem, ps: map<(nat, int), nat>, k: nat, D: set<Item>, H1: set<Item>) {
    forall x, b :: x in D && k < |c.w| && b in c.g.classes && WaitsFor(c.g.prods, x, NT(b))
                   && c.w[k] in c.g.classes[b] ==>
                     (b, c.w[k]) in ps && Item(k + 1, ps[(b, c.w[k])], k, 1) in H1
  }

  ghost predicate NullAdvanced(c: Problem, k: nat, D: set<Item>, H: set<Item>) {
    forall x, l :: x in D && WaitsFor(c.g.prods, x, l) && NullableLit(c.g, l) ==> Advance(x, k) in H
  }

  /** Every item that something could complete has been put on the waiting list. */
  ghost predicate Cached(c: Problem, k: nat, D: set<Item>, row: seq<Wait>) {
    forall x, b :: x in D && WaitsFor(c.g.prods, x, NT(b)) && CanComplete(c, b, k) ==> Wait(b, x) in row
  }

  ghost predicate CanComplete(c: Problem, b: nat, k: nat) {
    if b in c.g.classes then k < |c.w| && c.w[k] in c.g.classes[b]
    else exists p :: 0 <= p < |c.g.prods| && c.g.prods[p].head == b
  }

  ghost predicate CompletedOver(c: Problem, G: seq<Prod>, e: Item, X: set<Item>, H: set<Item>)
    requires e.prod < |G|
  {
    forall x :: x in X && WaitsFor(c.g.prods, x, NT(G[e.prod].head)) ==> Advance(x, e.at) in H
  }

  /** Set `k` needs no more work. */
  ghost predicate Settled(c: Problem, st: State, k: nat) {
    var I := Items(st, k);
    && Predicted(c, k, I, I) && Scanned(c, k, I, Items(st, k + 1)) && ClassScanned(c, st.ps, k, I, Items(st, k + 1))
    && Cached(c, k, I, Row(st.cache, k)) && ClosedNull(c.g, iset x | x in I && x.at == k)
    && (forall e :: e in I && Completed(st.G, e) ==> CompletedOver(c, st.G, e, Items(st, e.from), I))
  }

  ghost predicate AllSettled(c: Problem, st: State, n: nat) {
    forall k: nat :: k < n ==> Settled(c, st, k)
  }

  /** Which items of the position in focus came from scanning, and which have been processed. */
  ghost predicate Shape(c: Problem, st: State, f: Focus) {
    && f.n <= |c.w| && f.n < |st.S|
    && f.proc <= Items(st, f.n) && f.arrived <= Items(st, f.n)
    && (forall x :: x in f.arrived || x in Items(st, f.n + 1) ==> Arrival(c, x))
    && (f.arrived <= f.proc || Items(st, f.n) <= f.arrived)
  }

  /** The work done so far at the position in focus. */
  ghost predicate Progress(c: Problem, st: State, f: Focus) {
    var H := Here(st, f.n);
    && Predicted(c, f.n, f.proc, H) && Scanned(c, f.n, f.proc, Items(st, f.n + 1))
    && ClassScanned(c, st.ps, f.n, f.proc, Items(st, f.n + 1)) && Cached(c, f.n, f.proc, Row(st.cache, f.n))
    && NullAdvanced(c, f.n, H - f.arrived, H)
    && (forall e :: e in f.proc && Completed(st.G, e) ==> CompletedOver(c, st.G, e, Waiters(st, f, e), H))
  }

  /** The items a completion at the focus position has to advance itself. */
  ghost function Waiters(st: State, f: Focus, e: Item): set<Item> {
    if e.from < f.n then Items(st, e.from) else f.arrived
  }

  ghost predicate Inv(c: Problem, st: State, f: Focus) {
    && GrammarOK(c, st) && ItemsOK(c, st, f.n) && CacheOK(c, st, f.n)
    && AllSettled(c, st, f.n) && Shape(c, st, f) && Progress(c, st, f)
  }

  /** A memo says how much of the waiting list its item has already advanced. */
  ghost predicate MemoOK(c: Problem, st: State, n: nat, e: Item)
    requires e in st.memo
  {
    && e in Items(st, n) && e.prod < |st.G| && st.memo[e] <= |Row(st.cache, e.from)|
    && forall k :: 0 <= k < st.memo[e] && Row(st.cache, e.from)[k].nt == st.G[e.prod].head ==>
         Advance(Row(st.cache, e.from)[k].it, n) in Here(st, n)
  }

  ghost predicate MemosOK(c: Problem, st: State, n: nat) {
    forall e :: e in st.memo ==> MemoOK(c, st, n, e)
  }

  // ---- add: insert, then step over nullable literals

  predicate NullableAt(nullables: set<nat>, body: seq<Lit>, dot: nat) {
    dot < |body| && (body[dot].Null? || (body[dot].NT? && body[dot].n in nullables))
  }

  function AddTo(G: seq<Prod>, nullables: set<nat>, row: seq<Item>, t: seq<Item>, i: Item): (t': seq<Item>)
    requires i.prod < |G| && i.dot <= |G[i.prod].body|
    ensures t <= t'
    ensures i in row || i in t'
    ensures i in row || i in t ==> t' == t
    ensures t' != t ==> |t'| > |t| && t'[|t|] == i && i !in row && i !in t
    decreases |G[i.prod].body| - i.dot
  {
    if i in row || i in t then t
    else if NullableAt(nullables, G[i.prod].body, i.dot) then
      var t' := AddTo(G, nullables, row, t + [i], Advance(i, i.at));
      assert t'[|t|] == (t + [i])[|t|] == i;
      t'
    else t + [i]
  }

  /** `add` is never given an item that scanning has just put behind a terminal and that waits for `null`. */
  ghost predicate Addable(c: Problem, i: Item) {
    WaitsFor(c.g.prods, i, Null) ==> StepsOverNull(c.g.prods, i)
  }

  /** Everything `add` inserts is reached, and is advanced over its nullable literals. */
  lemma {:induction false} AddToReaches(c: Problem, st: State, nullables: set<nat>, row: seq<Item>, t: seq<Item>,
          i: Item)
    requires GrammarOK(c, st) && NullablesExact(c.g, nullables)
    requires Source(c, i) && Sound(c, st.G, i) && Addable(c, i)
    ensures var t' := AddTo(st.G, nullables, row, t, i);
            && (forall x :: x in t' && x !in t ==> x.at == i.at && Source(c, x) && Sound(c, st.G, x))
            && (forall x, l :: x in t' && x !in t && WaitsFor(c.g.prods, x, l) && NullableLit(c.g, l) ==>
                  Advance(x, i.at) in row || Advance(x, i.at) in t')
    decreases |st.G[i.prod].body| - i.dot
  {
    var body := c.g.prods[i.prod].body;
    assert st.G[i.prod] == c.g.prods[i.prod];
    if !(i in row || i in t) && NullableAt(nullables, body, i.dot) {
      NullableAdvanceReached(c.g, c.w, c.eof, true, i, body[i.dot]);
      AddToReaches(c, st, nullables, row, t + [i], Advance(i, i.at));
    }
  }

  // ---- growth keeps progress

  /** `st'` is `st` with more items at the focus position or just after it. */
  ghost predicate Grows(st: State, st': State, n: nat) {
    && |st.G| <= |st'.G| && st'.G[..|st.G|] == st.G
    && (forall k :: k in st.ps ==> k in st'.ps && st'.ps[k] == st.ps[k])
    && (forall k: nat :: k < n ==> Row(st'.S, k) == Row(st.S, k) && Row(st'.cache, k) == Row(st.cache, k))
    && Items(st, n) <= Items(st', n) && Here(st, n) <= Here(st', n)
    && Items(st, n + 1) <= Items(st', n + 1)
    && Row(st.cache, n) <= Row(st'.cache, n)
  }

  /** `st'` comes from `st` by updates at position `n` that only extend; what they append to set `n` is also
      in `t`, and the first item they put into an empty `t` is new. */
  ghost predicate Steps(st: State, st': State, n: nat) {
    && Grows(st, st', n) && st.t <= st'.t
    && (st.t == [] && st'.t != [] ==> st'.t[0] !in Here(st, n))
    && Row(st.S, n) <= Row(st'.S, n)
    && (forall k :: |Row(st.S, n)| <= k < |Row(st'.S, n)| ==> Row(st'.S, n)[k] in st'.t)
  }

  lemma StepsReflexive(st: State, n: nat)
    ensures Steps(st, st, n)
  {
  }

  lemma StepsTransitive(a: State, b: State, d: State, n: nat)
    requires Steps(a, b, n) && Steps(b, d, n)
    ensures Steps(a, d, n)
  {
    assert forall k: nat :: k < n ==> Row(d.S, k) == Row(b.S, k) == Row(a.S, k);
  }

  lemma StepsKeep(st: State, st': State, n: nat, x: Item)
    requires Steps(st, st', n) && x in Items(st, n)
    ensures x in Items(st', n)
  {
  }

  lemma SettledGrows(c: Problem, st: State, st': State, n: nat, k: nat)
    requires Grows(st, st', n) && k < n && Settled(c, st, k)
    requires forall x :: x in Items(st, k) ==> x.at == k && x.from <= k && x.prod < |st.G|
    ensures Settled(c, st', k)
  {
    assert Items(st', k) == Items(st, k);
    assert Items(st, k + 1) <= Items(st', k + 1);
    forall e | e in Items(st', k) && Completed(st'.G, e)
      ensures CompletedOver(c, st'.G, e, Items(st', e.from), Items(st', k))
    {
      assert st'.G[e.prod] == st.G[e.prod];
      assert Items(st', e.from) == Items(st, e.from);
    }
  }

  lemma AllSettledGrows(c: Problem, st: State, st': State, n: nat)
    requires Grows(st, st', n) && AllSettled(c, st, n)
    requires forall k: nat, x :: x in Items(st, k) ==> x.at == k && x.from <= k && x.prod < |st.G|
    ensures AllSettled(c, st', n)
  {
    forall k: nat | k < n ensures Settled(c, st', k) {
      SettledGrows(c, st, st', n, k);
    }
  }

  /** What is new at position `n` has been advanced over its nullable literals. */
  ghost predicate NewAdvanced(c: Problem, st: State, st': State, n: nat) {
    forall x, l :: x in Here(st', n) && x !in Here(st, n) && WaitsFor(c.g.prods, x, l) && NullableLit(c.g, l) ==>
      Advance(x, n) in Here(st', n)
  }

  lemma ProgressGrows(c: Problem, st: State, st': State, f: Focus)
    requires Progress(c, st, f) && Grows(st, st', f.n) && NewAdvanced(c, st, st', f.n) && f.proc <= Items(st, f.n)
    requires forall x :: x in Items(st, f.n) ==> x.prod < |st.G| && x.from <= f.n
    ensures Progress(c, st', f)
  {
    hide Nullable;
    var H, H' := Here(st, f.n), Here(st', f.n);
    forall e | e in f.proc && Completed(st'.G, e) ensures CompletedOver(c, st'.G, e, Waiters(st', f, e), H') {
      assert st'.G[e.prod] == st.G[e.prod];
      assert Completed(st.G, e) && Waiters(st', f, e) == Waiters(st, f, e);
      assert CompletedOver(c, st.G, e, Waiters(st, f, e), H);
    }
    forall x, l | x in H' - f.arrived && WaitsFor(c.g.prods, x, l) && NullableLit(c.g, l)
      ensures Advance(x, f.n) in H'
    {
      if x in H {
        assert Advance(x, f.n) in H;
      }
    }
    assert Cached(c, f.n, f.proc, Row(st'.cache, f.n));
  }

  /** Growth keeps `Inv` when the new items are sound and themselves advanced over nullable literals. */
  lemma InvGrows(c: Problem, st: State, st': State, f: Focus)
    requires Inv(c, st, f) && Grows(st, st', f.n) && NewAdvanced(c, st, st', f.n)
    requires GrammarOK(c, st') && ItemsOK(c, st', f.n) && CacheOK(c, st', f.n) && Shape(c, st', f)
    ensures Inv(c, st', f)
  {
    hide Progress, AllSettled, WellFormed, Reach, NewAdvanced;
    ItemsFit(c, st, f.n);
    AllSettledGrows(c, st, st', f.n);
    ProgressGrows(c, st, st', f);
  }

  lemma ItemsFit(c: Problem, st: State, n: nat)
    requires GrammarOK(c, st) && ItemsOK(c, st, n)
    ensures forall k: nat, x :: x in Items(st, k) ==> x.at == k && x.from <= k && x.prod < |st.G| && Fits(st.G, x)
    ensures forall x :: x in st.t ==> x.at == n && x.from <= n && x.prod < |st.G| && Fits(st.G, x)
  {
    forall x: Item | x.prod < |c.g.prods| ensures st.G[x.prod] == c.g.prods[x.prod] {
    }
  }

  lemma MemosGrow(c: Problem, st: State, st': State, f: Focus)
    requires Inv(c, st, f) && Steps(st, st', f.n) && MemosOK(c, st, f.n) && st'.memo == st.memo
    ensures MemosOK(c, st', f.n)
  {
    hide Inv, Grows, MemosOK;
    MemosSpread(c, st, st', f);
  }

  lemma MemosSpread(c: Problem, st: State, st': State, f: Focus)
    requires Inv(c, st, f) && Grows(st, st', f.n) && MemosOK(c, st, f.n) && st'.memo == st.memo
    ensures MemosOK(c, st', f.n)
  {
    hide MemoOK, Inv, Grows;
    forall e | e in st'.memo ensures MemoOK(c, st', f.n, e) {
      MemoGrows(c, st, st', f, e);
    }
  }

  lemma MemoGrows(c: Problem, st: State, st': State, f: Focus, e: Item)
    requires Inv(c, st, f) && Grows(st, st', f.n) && MemosOK(c, st, f.n) && st'.memo == st.memo && e in st.memo
    ensures MemoOK(c, st', f.n, e)
  {
    hide Progress, AllSettled, Shape, CacheOK, GrammarOK, Reach;
    assert MemoOK(c, st, f.n, e);
    assert e in Items(st, f.n);
    assert Sound(c, st.G, e) && e.from <= f.n;
    assert Row(st.cache, e.from) <= Row(st'.cache, e.from);
  }

  // ---- the elementary updates, each keeping the invariant

  function Padded<A>(rows: seq<seq<A>>, n: nat): seq<seq<A>> {
    rows + seq(if n > |rows| then n - |rows| else 0, _ => [])
  }

  /** Puts `a` at the end of row `k` unless it is there, making the row if needed. */
  function Insert<A(==)>(rows: seq<seq<A>>, k: nat, a: A): (r: seq<seq<A>>)
    ensures |r| == if k < |rows| then |rows| else k + 1
    ensures forall i: nat :: i != k ==> Row(r, i) == Row(rows, i)
    ensures Row(r, k) == if a in Row(rows, k) then Row(rows, k) else Row(rows, k) + [a]
  {
    var p := Padded(rows, k + 1);
    if a in p[k] then p else p[k := p[k] + [a]]
  }

  lemma AddKeepsInv(c: Problem, st: State, nullables: set<nat>, f: Focus, i: Item)
    requires Inv(c, st, f) && NullablesExact(c.g, nullables)
    requires i.at == f.n && Source(c, i) && Sound(c, st.G, i) && Addable(c, i) && st.G[i.prod] == c.g.prods[i.prod]
    ensures var st' := st.(t := AddTo(st.G, nullables, Row(st.S, f.n), st.t, i));
            Inv(c, st', f) && Steps(st, st', f.n) && i in Here(st', f.n)
  {
    hide Progress, AllSettled, Reach, WellFormed, Nullable, Arrival;
    var t' := AddTo(st.G, nullables, Row(st.S, f.n), st.t, i);
    var st' := st.(t := t');
    assert forall x :: x in st.t ==> x in t';
    hide AddTo;
    AddToReaches(c, st, nullables, Row(st.S, f.n), st.t, i);
    assert Here(st', f.n) == Items(st, f.n) + ToSet(t');
    assert forall k: nat :: Items(st', k) == Items(st, k);
    assert forall x :: x in t' ==> x.at == f.n && Source(c, x) && Sound(c, st.G, x);
    assert ItemsOK(c, st', f.n);
    InvGrows(c, st, st', f);
  }

  lemma CacheKeepsInv(c: Problem, st: State, f: Focus, x: Item, b: nat)
    requires Inv(c, st, f) && x in Items(st, f.n) && WaitsFor(c.g.prods, x, NT(b))
    ensures var st' := st.(cache := Insert(st.cache, f.n, Wait(b, x)));
            Inv(c, st', f) && Steps(st, st', f.n) && Wait(b, x) in Row(st'.cache, f.n)
  {
    hide Progress, AllSettled, Reach, WellFormed, Nullable, Arrival;
    var st' := st.(cache := Insert(st.cache, f.n, Wait(b, x)));
    assert forall k: nat :: Items(st', k) == Items(st, k);
    assert CacheOK(c, st', f.n);
    InvGrows(c, st, st', f);
  }

  /** A scanned item lands just after the focus position. */
  lemma ArrivedItems(st: State, n: nat, j: Item)
    ensures var st' := st.(S := Insert(st.S, n + 1, j));
            && Items(st', n + 1) == Items(st, n + 1) + {j} && Here(st', n) == Here(st, n)
            && forall k: nat :: k != n + 1 ==> Items(st', k) == Items(st, k)
  {
  }

  lemma ArriveShape(c: Problem, st: State, f: Focus, j: Item)
    requires Inv(c, st, f) && j.at == f.n + 1 && Sound(c, st.G, j) && Arrival(c, j)
    ensures var st' := st.(S := Insert(st.S, f.n + 1, j));
            && GrammarOK(c, st') && ItemsOK(c, st', f.n) && CacheOK(c, st', f.n) && Shape(c, st', f)
            && Grows(st, st', f.n) && NewAdvanced(c, st, st', f.n)
  {
    ArrivedItems(st, f.n, j);
    hide Progress, AllSettled, Reach, WellFormed, Nullable, Arrival, Items, Sound, Insert;
    var st' := st.(S := Insert(st.S, f.n + 1, j));
    assert CacheOK(c, st', f.n) by {
      assert forall m: nat, e :: e in Row(st.cache, m) ==> m != f.n + 1;
    }
  }

  lemma ArriveKeepsInv(c: Problem, st: State, f: Focus, j: Item)
    requires Inv(c, st, f) && j.at == f.n + 1 && Sound(c, st.G, j) && Arrival(c, j)
    ensures var st' := st.(S := Insert(st.S, f.n + 1, j));
            Inv(c, st', f) && Steps(st, st', f.n) && j in Items(st', f.n + 1)
  {
    hide Inv, Reach, WellFormed, Nullable, Arrival, GrammarOK, ItemsOK, CacheOK, Shape, NewAdvanced;
    ArrivedItems(st, f.n, j);
    ArriveShape(c, st, f, j);
    InvGrows(c, st, st.(S := Insert(st.S, f.n + 1, j)), f);
  }

  lemma ScannedArrives(c: Problem, st: State, f: Focus, x: Item)
    requires Inv(c, st, f) && x in Items(st, f.n) && f.n < |c.w| && WaitsFor(c.g.prods, x, T(c.w[f.n]))
    ensures Sound(c, st.G, Advance(x, f.n + 1)) && Arrival(c, Advance(x, f.n + 1))
  {
    hide Reach;
    ReachScan(c.g, c.w, c.eof, true, x);
  }

  lemma ClassArrives(c: Problem, st: State, f: Focus, x: Item, b: nat, p: nat)
    requires Inv(c, st, f) && x in Items(st, f.n) && f.n < |c.w| && WaitsFor(c.g.prods, x, NT(b))
    requires b in c.g.classes && c.w[f.n] in c.g.classes[b] && (b, c.w[f.n]) in st.ps && p == st.ps[(b, c.w[f.n])]
    ensures Sound(c, st.G, Item(f.n + 1, p, f.n, 1)) && Arrival(c, Item(f.n + 1, p, f.n, 1))
  {
    hide Reach;
  }

  /** A class production made on first use changes nothing that is already there. */
  lemma SoundWithMore(c: Problem, G: seq<Prod>, q: Prod, x: Item)
    requires Sound(c, G, x)
    ensures Sound(c, G + [q], x)
  {
    hide Reach;
  }

  lemma ClassProductionShape(c: Problem, st: State, f: Focus, b: nat, ch: int)
    requires Inv(c, st, f) && b in c.g.classes && ch in c.g.classes[b] && (b, ch) !in st.ps
    ensures var st' := st.(G := st.G + [Prod(b, [T(ch)])], ps := st.ps[(b, ch) := |st.G|]);
            && GrammarOK(c, st') && ItemsOK(c, st', f.n) && CacheOK(c, st', f.n) && Shape(c, st', f)
            && Grows(st, st', f.n) && NewAdvanced(c, st, st', f.n)
  {
    hide Progress, AllSettled, Reach, WellFormed, Nullable, Arrival, Sound;
    var st' := st.(G := st.G + [Prod(b, [T(ch)])], ps := st.ps[(b, ch) := |st.G|]);
    assert forall k: nat :: Items(st', k) == Items(st, k);
    assert forall p :: 0 <= p < |st.G| ==> st'.G[p] == st.G[p];
    forall x | Sound(c, st.G, x) ensures Sound(c, st'.G, x) {
      SoundWithMore(c, st.G, Prod(b, [T(ch)]), x);
    }
  }

  lemma ClassProductionKeepsInv(c: Problem, st: State, f: Focus, b: nat, ch: int)
    requires Inv(c, st, f) && b in c.g.classes && ch in c.g.classes[b] && (b, ch) !in st.ps
    ensures var st' := st.(G := st.G + [Prod(b, [T(ch)])], ps := st.ps[(b, ch) := |st.G|]);
            Inv(c, st', f) && Steps(st, st', f.n)
  {
    hide Inv, Reach, WellFormed, Nullable, Arrival, GrammarOK, ItemsOK, CacheOK, Shape, NewAdvanced;
    ClassProductionShape(c, st, f, b, ch);
    InvGrows(c, st, st.(G := st.G + [Prod(b, [T(ch)])], ps := st.ps[(b, ch) := |st.G|]), f);
  }

  /** An item that stands before `null` was added by `add`, so its advance is there already. */
  lemma NullIsAdvanced(c: Problem, st: State, f: Focus, x: Item)
    requires Inv(c, st, f) && x in Items(st, f.n) && StepsOverNull(c.g.prods, x)
    ensures Advance(x, f.n) in Here(st, f.n) && f.arrived <= f.proc
  {
    hide Reach;
    assert x !in f.arrived;
    assert x in Here(st, f.n) - f.arrived;
    assert NullableLit(c.g, Null);
  }

  lemma FocusBound(c: Problem, st: State, f: Focus)
    requires Inv(c, st, f)
    ensures f.n < |st.S| <= f.n + 2 && f.n <= |c.w|
  {
  }

  lemma NullScanKeepsInv(c: Problem, st: State, f: Focus, x: Item)
    requires Inv(c, st, f) && x in Items(st, f.n) && StepsOverNull(c.g.prods, x)
    ensures var st' := st.(S := Insert(st.S, f.n, Advance(x, f.n)));
            Inv(c, st', f) && Steps(st, st', f.n) && Here(st', f.n) == Here(st, f.n)
  {
    hide Inv, Reach;
    NullIsAdvanced(c, st, f, x);
    FocusBound(c, st, f);
    MoveKeepsInv(c, st, f, Insert(st.S, f.n, Advance(x, f.n)), st.t);
  }

  /** Moving items of `t` into the set in focus changes nothing else. */
  lemma MoveKeepsInv(c: Problem, st: State, f: Focus, S': seq<seq<Item>>, t': seq<Item>)
    requires Inv(c, st, f)
    requires |S'| == |st.S| && forall k: nat :: k != f.n ==> Row(S', k) == Row(st.S, k)
    requires Items(st, f.n) <= ToSet(Row(S', f.n)) && ToSet(Row(S', f.n)) + ToSet(t') == Here(st, f.n)
    requires f.arrived <= f.proc || Items(st, f.n) == ToSet(Row(S', f.n))
    requires forall x :: x in t' ==> x in st.t
    ensures Inv(c, st.(S := S', t := t'), f) && Grows(st, st.(S := S', t := t'), f.n)
  {
    hide Progress, AllSettled, Reach, WellFormed, Nullable, Arrival;
    var st' := st.(S := S', t := t');
    assert forall k: nat :: k != f.n ==> Items(st', k) == Items(st, k);
    assert Here(st', f.n) == Here(st, f.n);
    assert forall x :: x in Items(st', f.n) ==> x in Items(st, f.n) || x in st.t;
    assert ItemsOK(c, st', f.n);
    assert CacheOK(c, st', f.n);
    InvGrows(c, st, st', f);
  }

  // ---- processing one item

  /** The productions below `p` have been tried for `x`, which waits for `nt`. */
  ghost predicate PredictedUpTo(c: Problem, st: State, n: nat, x: Item, nt: nat, p: nat) {
    && p <= |st.G|
    && (forall q :: 0 <= q < p && st.G[q].head == nt ==> Wait(nt, x) in Row(st.cache, n))
    && (forall q :: 0 <= q < p && st.G[q].head == nt && FirstCanMatch(c.g, st.G[q].body, CharAt(c.w, c.eof, n)) ==>
          Item(n, q, n, 0) in Here(st, n))
  }

  lemma PredictedNone(c: Problem, st: State, n: nat, x: Item, nt: nat)
    ensures PredictedUpTo(c, st, n, x, nt, 0)
  {
  }

  lemma PredictedNext(c: Problem, st: State, st': State, n: nat, x: Item, nt: nat, p: nat)
    requires PredictedUpTo(c, st, n, x, nt, p) && p < |st.G| && st'.G == st.G && Steps(st, st', n)
    requires st.G[p].head == nt ==> Wait(nt, x) in Row(st'.cache, n)
    requires st.G[p].head == nt && FirstCanMatch(c.g, st.G[p].body, CharAt(c.w, c.eof, n)) ==>
               Item(n, p, n, 0) in Here(st', n)
    ensures PredictedUpTo(c, st', n, x, nt, p + 1)
  {
    hide FirstCanMatch;
  }

  lemma PredictedSound(c: Problem, st: State, f: Focus, x: Item, p: nat)
    requires Inv(c, st, f) && x in Items(st, f.n) && p < |st.G| && st.G[p].head !in c.g.classes
    requires WaitsFor(c.g.prods, x, NT(st.G[p].head)) && FirstCanMatch(c.g, st.G[p].body, CharAt(c.w, c.eof, f.n))
    ensures p < |c.g.prods| && st.G[p] == c.g.prods[p] && Sound(c, st.G, Item(x.at, p, x.at, 0))
    ensures Addable(c, Item(x.at, p, x.at, 0))
  {
    hide Reach;
    ReachPredict(c.g, c.w, c.eof, true, x, p);
  }

  /** Advancing a waiting item over a completion of what it waits for stays in the closure. */
  lemma CompletionAdvances(c: Problem, st: State, f: Focus, x: Item, e: Wait)
    requires Inv(c, st, f) && x in Items(st, f.n) && Completed(st.G, x)
    requires e in Row(st.cache, x.from) && e.nt == st.G[x.prod].head
    ensures Source(c, e.it) && Source(c, Advance(e.it, f.n)) && Sound(c, st.G, Advance(e.it, f.n))
    ensures Addable(c, Advance(e.it, f.n))
    ensures e.it.prod < |st.G| && st.G[e.it.prod] == c.g.prods[e.it.prod]
    ensures e.it.dot < |st.G[e.it.prod].body| && e.it in Row(st.S, e.it.at)
  {
    hide Reach, Progress, AllSettled;
    if Source(c, x) {
      assert st.G[x.prod] == c.g.prods[x.prod];
      ReachComplete(c.g, c.w, c.eof, true, e.it, x);
    } else {
      ReachScan(c.g, c.w, c.eof, true, e.it);
    }
  }

  function WithMemo(st: State, memo: map<Item, nat>): State {
    st.(memo := memo)
  }

  lemma MemoIsApart(c: Problem, st: State, f: Focus, memo: map<Item, nat>)
    ensures Inv(c, WithMemo(st, memo), f) <==> Inv(c, st, f)
    ensures forall k: nat :: Items(WithMemo(st, memo), k) == Items(st, k)
    ensures forall n: nat :: Here(WithMemo(st, memo), n) == Here(st, n)
  {
    hide Reach, WellFormed, Nullable, Sound, Arrival, Predicted, Scanned, ClassScanned, Cached, NullAdvanced,
        CompletedOver, ClosedNull;
    var st' := WithMemo(st, memo);
    assert forall k: nat :: Items(st', k) == Items(st, k);
    assert forall k: nat :: Settled(c, st', k) <==> Settled(c, st, k);
  }

  /** The first `k` entries of the waiting list of completion `x` have been advanced. */
  ghost predicate Handled(st: State, n: nat, x: Item, k: nat) {
    && x.prod < |st.G| && k <= |Row(st.cache, x.from)|
    && forall i :: 0 <= i < k && Row(st.cache, x.from)[i].nt == st.G[x.prod].head ==>
         Advance(Row(st.cache, x.from)[i].it, n) in Here(st, n)
  }

  lemma HandledStarts(c: Problem, st: State, n: nat, x: Item)
    requires MemosOK(c, st, n) && x.prod < |st.G|
    ensures Handled(st, n, x, if x in st.memo then st.memo[x] else 0)
  {
    if x in st.memo {
      assert MemoOK(c, st, n, x);
    }
  }

  /** Writing memos is a step that changes nothing else. */
  lemma MemoStep(c: Problem, st: State, f: Focus, x: Item, memo: map<Item, nat>, k: nat)
    requires Inv(c, st, f) && MemosOK(c, st, f.n) && Handled(st, f.n, x, k)
    ensures var st' := WithMemo(st, memo);
            Inv(c, st', f) && Steps(st, st', f.n) && Handled(st', f.n, x, k)
            && MemosOK(c, WithMemo(st', st.memo - {x}), f.n)
  {
    hide Inv;
    var others := st.memo - {x};
    MemoIsApart(c, st, f, memo);
    MemoIsApart(c, st, f, others);
    forall e | e in others ensures MemoOK(c, WithMemo(st, others), f.n, e) {
      assert MemoOK(c, st, f.n, e);
    }
    assert WithMemo(WithMemo(st, memo), others) == WithMemo(st, others);
  }

  lemma HandledBound(st: State, n: nat, x: Item, k: nat)
    requires Handled(st, n, x, k)
    ensures k <= |Row(st.cache, x.from)|
  {
  }

  lemma HandledNext(st: State, st': State, n: nat, x: Item, k: nat)
    requires Handled(st, n, x, k) && Steps(st, st', n) && k < |Row(st.cache, x.from)|
    requires st'.G == st.G && st'.cache == st.cache
    requires Row(st.cache, x.from)[k].nt == st.G[x.prod].head ==>
             Advance(Row(st.cache, x.from)[k].it, n) in Here(st', n)
    ensures Handled(st', n, x, k + 1)
  {
  }

  /** While `x` reads its list, the memos of the others stay right. */
  lemma OthersGrow(c: Problem, st: State, st': State, f: Focus, others: map<Item, nat>)
    requires Inv(c, st, f) && Steps(st, st', f.n) && MemosOK(c, WithMemo(st, others), f.n)
    ensures MemosOK(c, WithMemo(st', others), f.n)
  {
    MemoIsApart(c, st, f, others);
    assert Items(WithMemo(st', others), f.n) == Items(st', f.n);
    assert Here(WithMemo(st', others), f.n) == Here(st', f.n);
    assert Steps(WithMemo(st, others), WithMemo(st', others), f.n) by {
      hide Inv, MemosOK;
      assert Items(WithMemo(st', others), f.n + 1) == Items(st', f.n + 1);
    }
    hide Inv, Steps, MemosOK;
    MemosGrow(c, WithMemo(st, others), WithMemo(st', others), f);
  }

  /** When the whole list is handled the memo of `x` is right as well. */
  lemma MemoSet(c: Problem, st: State, n: nat, x: Item, others: map<Item, nat>)
    requires MemosOK(c, WithMemo(st, others), n) && x in Items(st, n)
    requires others == st.memo - {x} && x in st.memo && st.memo[x] == |Row(st.cache, x.from)|
    requires Handled(st, n, x, |Row(st.cache, x.from)|)
    ensures MemosOK(c, st, n)
  {
    forall e | e in st.memo ensures MemoOK(c, st, n, e) {
      if e != x {
        assert MemoOK(c, WithMemo(st, others), n, e);
        assert Here(WithMemo(st, others), n) == Here(st, n);
      }
    }
  }

  /** A completion whose memo covers the whole waiting list has advanced everything it has to. */
  lemma MemoCovers(c: Problem, st: State, f: Focus, x: Item)
    requires Inv(c, st, f) && x in Items(st, f.n) && Completed(st.G, x)
    requires x in st.memo && MemoOK(c, st, f.n, x) && st.memo[x] == |Row(st.cache, x.from)|
    ensures CompletedOver(c, st.G, x, Waiters(st, f, x), Here(st, f.n))
  {
    hide Reach;
    var b := st.G[x.prod].head;
    assert CanComplete(c, b, x.from) by {
      if Source(c, x) {
        assert c.g.prods[x.prod].head == b;
      }
    }
    forall y | y in Waiters(st, f, x) && WaitsFor(c.g.prods, y, NT(b)) ensures Advance(y, x.at) in Here(st, f.n) {
      assert Wait(b, y) in Row(st.cache, x.from) by {
        if x.from < f.n {
          assert Settled(c, st, x.from);
        } else {
          assert x !in f.arrived;
          assert y in f.proc;
        }
      }
    }
  }

  lemma ProcKeepsInv(c: Problem, st: State, f: Focus, x: Item)
    requires Inv(c, st, f) && x in Items(st, f.n)
    requires Predicted(c, f.n, {x}, Here(st, f.n)) && Scanned(c, f.n, {x}, Items(st, f.n + 1))
    requires ClassScanned(c, st.ps, f.n, {x}, Items(st, f.n + 1)) && Cached(c, f.n, {x}, Row(st.cache, f.n))
    requires Completed(st.G, x) ==> CompletedOver(c, st.G, x, Waiters(st, f, x), Here(st, f.n))
    ensures Inv(c, st, f.(proc := f.proc + {x}))
  {
    hide Reach, WellFormed, Nullable, AllSettled, ItemsOK, CacheOK, GrammarOK, Arrival;
    var f' := f.(proc := f.proc + {x});
    assert forall e :: Waiters(st, f', e) == Waiters(st, f, e);
    assert Progress(c, st, f');
  }

  lemma FocusGrammar(c: Problem, st: State, f: Focus)
    requires Inv(c, st, f)
    ensures GrammarOK(c, st)
  {
  }

  lemma NoSentinelWaited(c: Problem, st: State, x: Item, ch: int)
    requires GrammarOK(c, st) && WaitsFor(c.g.prods, x, T(ch))
    ensures !IsSentinel(ch)
  {
  }

  /** A matching terminal, or `null` against the zero that ends some inputs, advances `x` into its set. */
  lemma ScanKeepsInv(c: Problem, st: State, f: Focus, x: Item, ch: int)
    requires Inv(c, st, f) && x in Items(st, f.n) && ch == CharAt(c.w, c.eof, f.n)
    requires WaitsFor(c.g.prods, x, T(ch)) || (ch == 0 && WaitsFor(c.g.prods, x, Null))
    ensures var j := Advance(x, f.n + if ch == 0 then 0 else 1);
            var st' := st.(S := Insert(st.S, j.at, j));
            && Inv(c, st', f) && Steps(st, st', f.n)
            && (f.n < |c.w| && WaitsFor(c.g.prods, x, T(c.w[f.n])) ==> Advance(x, f.n + 1) in Items(st', f.n + 1))
  {
    hide Inv, Reach, Steps, Sound, Arrival, StepsOverNull;
    FocusGrammar(c, st, f);
    if WaitsFor(c.g.prods, x, T(ch)) {
      NoSentinelWaited(c, st, x, ch);
      ScannedArrives(c, st, f, x);
      ArriveKeepsInv(c, st, f, Advance(x, f.n + 1));
    } else {
      ZeroMeansLead(c, st, f, x);
      NullIsAdvanced(c, st, f, x);
      NullScanKeepsInv(c, st, f, x);
    }
  }

  /** Where a 0 is read, no item waits for `null` behind a terminal. */
  lemma ZeroMeansLead(c: Problem, st: State, f: Focus, x: Item)
    requires GrammarOK(c, st) && CharAt(c.w, c.eof, f.n) == 0 && WaitsFor(c.g.prods, x, Null)
    ensures StepsOverNull(c.g.prods, x)
  {
    hide WellFormed;
    assert f.n < |c.w| ==> c.w[f.n] in c.w;
  }

  /** An item that waits for a terminal or `null` is processed once its scan has arrived. */
  lemma ScanDone(c: Problem, st: State, f: Focus, x: Item, l: Lit)
    requires Inv(c, st, f) && x in Items(st, f.n) && WaitsFor(c.g.prods, x, l) && !l.NT?
    requires f.n < |c.w| && WaitsFor(c.g.prods, x, T(c.w[f.n])) ==> Advance(x, f.n + 1) in Items(st, f.n + 1)
    ensures Inv(c, st, f.(proc := f.proc + {x}))
  {
    hide Reach, Progress, AllSettled, Here, Items, Sound, WellFormed, Nullable;
    assert st.G[x.prod] == c.g.prods[x.prod];
    assert !Completed(st.G, x);
    ProcKeepsInv(c, st, f, x);
  }

  /** No class accepts the value reported past the end. */
  lemma ClassRejectsEnd(c: Problem, st: State, f: Focus, b: nat)
    requires Inv(c, st, f) && b in c.g.classes
    ensures var ch := CharAt(c.w, c.eof, f.n);
            && ((b, ch) in st.ps ==> ch in c.g.classes[b])
            && (ch in c.g.classes[b] ==> !IsSentinel(ch) && f.n < |c.w| && ch == c.w[f.n])
  {
    hide Reach, Progress, AllSettled, ItemsOK, CacheOK;
  }

  /** An item that waits for class `b` is processed once its character is scanned or refused. */
  lemma ClassDone(c: Problem, st: State, f: Focus, x: Item, b: nat)
    requires Inv(c, st, f) && x in Items(st, f.n) && WaitsFor(c.g.prods, x, NT(b)) && b in c.g.classes
    requires f.n < |c.w| && c.w[f.n] in c.g.classes[b] ==>
               && (b, c.w[f.n]) in st.ps && Item(f.n + 1, st.ps[(b, c.w[f.n])], f.n, 1) in Items(st, f.n + 1)
               && Wait(b, x) in Row(st.cache, f.n)
    ensures Inv(c, st, f.(proc := f.proc + {x}))
  {
    hide Reach, Progress, AllSettled, Here, Items, Sound, WellFormed, Nullable;
    assert st.G[x.prod] == c.g.prods[x.prod];
    assert !Completed(st.G, x);
    ProcKeepsInv(c, st, f, x);
  }

  /** An item that waits for a nonterminal is processed once every production of it has been tried. */
  lemma PredictDone(c: Problem, st: State, f: Focus, x: Item, b: nat)
    requires Inv(c, st, f) && x in Items(st, f.n) && WaitsFor(c.g.prods, x, NT(b)) && b !in c.g.classes
    requires PredictedUpTo(c, st, f.n, x, b, |st.G|)
    ensures Inv(c, st, f.(proc := f.proc + {x}))
  {
    hide Reach, Progress, AllSettled, Here, Items, Sound, WellFormed, Nullable, FirstCanMatch;
    assert st.G[x.prod] == c.g.prods[x.prod];
    assert !Completed(st.G, x);
    assert forall q :: 0 <= q < |c.g.prods| ==> st.G[q] == c.g.prods[q];
    ProcKeepsInv(c, st, f, x);
  }

  /** A completed item is processed once its memo covers its waiting list. */
  lemma CompleteDone(c: Problem, st: State, f: Focus, x: Item)
    requires Inv(c, st, f) && x in Items(st, f.n) && Completed(st.G, x) && MemosOK(c, st, f.n)
    requires x in st.memo && st.memo[x] == |Row(st.cache, x.from)|
    ensures Inv(c, st, f.(proc := f.proc + {x}))
  {
    hide Reach, Progress, AllSettled, Here, Items, WellFormed, Nullable, CompletedOver, MemoOK;
    MemoCovers(c, st, f, x);
    CompletedWaits(c, st, f, x);
    ProcKeepsInv(c, st, f, x);
  }

  lemma CompletedWaits(c: Problem, st: State, f: Focus, x: Item)
    requires Inv(c, st, f) && x in Items(st, f.n) && Completed(st.G, x)
    ensures forall l :: !WaitsFor(c.g.prods, x, l)
  {
    hide Reach, Progress, AllSettled;
    assert Source(c, x) ==> st.G[x.prod] == c.g.prods[x.prod];
  }

  /** What the position loop has to know about an item before it processes it. */
  lemma ItemInFocus(c: Problem, st: State, f: Focus, x: Item)
    requires Inv(c, st, f) && x in Items(st, f.n)
    ensures f.n < |st.S| && x.at == f.n && x.prod < |st.G| && x.dot <= |st.G[x.prod].body|
    ensures x.dot < |st.G[x.prod].body| ==> x.prod < |c.g.prods| && WaitsFor(c.g.prods, x, st.G[x.prod].body[x.dot])
  {
    hide Progress, AllSettled, Reach;
    assert Sound(c, st.G, x);
    assert Source(c, x) ==> st.G[x.prod] == c.g.prods[x.prod];
  }

  // ---- leaving a position

  /** With nothing left in `t` and every item processed, the set in focus is settled. */
  lemma FocusSettles(c: Problem, st: State, f: Focus)
    requires Inv(c, st, f) && st.t == [] && Items(st, f.n) <= f.proc
    ensures Settled(c, st, f.n)
  {
    hide Reach, Nullable;
    var I := Items(st, f.n);
    assert Here(st, f.n) == I && f.proc == I;
    forall x | x in I && StepsOverNull(c.g.prods, x) ensures Advance(x, f.n) in I {
      NullIsAdvanced(c, st, f, x);
    }
    forall e | e in I && Completed(st.G, e) ensures CompletedOver(c, st.G, e, Items(st, e.from), I) {
      assert CompletedOver(c, st.G, e, Waiters(st, f, e), I);
      if e.from == f.n {
        forall y | y in I && WaitsFor(c.g.prods, y, NT(st.G[e.prod].head)) ensures Advance(y, e.at) in I {
          if y !in f.arrived {
            assert Source(c, e) && st.G[e.prod] == c.g.prods[e.prod];
            EmptyCompletionIsNullable(c.g, c.w, c.eof, true, e);
            assert NullableLit(c.g, NT(st.G[e.prod].head));
          }
        }
      }
    }
  }

  function NextFocus(st: State, n: nat): Focus {
    Focus(n + 1, Items(st, n + 1), {})
  }

  lemma FocusMoves(c: Problem, st: State, f: Focus, S': seq<seq<Item>>)
    requires Inv(c, st, f) && Settled(c, st, f.n) && st.t == [] && f.n < |c.w|
    requires f.n + 1 < |S'| <= f.n + 3 && forall k: nat :: Row(S', k) == Row(st.S, k)
    ensures Inv(c, st.(S := S'), NextFocus(st, f.n)) && Items(st.(S := S'), 0) == Items(st, 0)
  {
    hide Reach, Settled, Progress, WellFormed, Arrival, AllSettled, Sound;
    var st' := st.(S := S');
    var f' := NextFocus(st, f.n);
    assert forall k: nat :: Items(st', k) == Items(st, k);
    assert Items(st, f.n + 2) == {};
    NextSettled(c, st, st', f.n);
    NextProgress(c, st', f');
  }

  lemma NextSettled(c: Problem, st: State, st': State, n: nat)
    requires AllSettled(c, st, n) && Settled(c, st, n)
    requires st' == st.(S := st'.S) && forall k: nat :: Row(st'.S, k) == Row(st.S, k)
    ensures AllSettled(c, st', n + 1)
  {
    hide Predicted, Scanned, ClassScanned, Cached, ClosedNull, CompletedOver;
    assert forall k: nat :: Items(st', k) == Items(st, k);
    forall k: nat | k < n + 1 ensures Settled(c, st', k) {
      assert Settled(c, st, k);
    }
  }

  lemma NextProgress(c: Problem, st: State, f: Focus)
    requires st.t == [] && f.proc == {} && f.arrived == Items(st, f.n)
    ensures Progress(c, st, f)
  {
    hide Reach, Nullable;
    assert Here(st, f.n) == f.arrived;
  }

  /** Nothing is settled and nothing is processed before the first position. */
  lemma FocusStarts(c: Problem, st: State)
    requires GrammarOK(c, st) && st.S == [[]] && st.t == [] && st.cache == []
    ensures Inv(c, st, Focus(0, {}, {}))
  {
    hide Reach, Nullable, WellFormed;
  }

  // ---- the finished chart

  /** The chart's source items: set `k` of the machine is set `k` of the closure. */
  ghost predicate ChartExact(c: Problem, st: State) {
    forall k: nat, x :: Source(c, x) ==> (x in Items(st, k) <==> x.at == k && Reach(c.g, c.w, c.eof, true, x))
  }

  ghost function ChartItems(c: Problem, st: State): iset<Item> {
    iset x | Source(c, x) && x in Items(st, x.at)
  }

  ghost predicate Finished(c: Problem, st: State) {
    && GrammarOK(c, st) && ItemsOK(c, st, |c.w|) && AllSettled(c, st, |c.w| + 1)
    && (forall p :: 0 <= p < |c.g.prods| && c.g.prods[p].head == c.g.start ==> Item(0, p, 0, 0) in Items(st, 0))
  }

  lemma ChartItemSettled(c: Problem, st: State, x: Item)
    requires Finished(c, st) && x in ChartItems(c, st)
    ensures Settled(c, st, x.at) && x.from <= x.at <= |c.w| && Fits(c.g.prods, x) && x.prod < |st.G|
    ensures st.G[x.prod] == c.g.prods[x.prod]
  {
    hide Reach, Nullable, Settled;
    assert x in Items(st, x.at);
    assert Sound(c, st.G, x);
  }

  lemma ChartCompletes(c: Problem, st: State, x: Item, e: Item)
    requires Finished(c, st) && x in ChartItems(c, st) && e in ChartItems(c, st) && Completes(c.g, e, x)
    ensures Advance(x, e.at) in ChartItems(c, st)
  {
    hide Reach, Nullable, AllSettled, GrammarOK, ItemsOK, Predicted, Scanned, ClassScanned, Cached, ClosedNull;
    ChartItemSettled(c, st, e);
    assert e in Items(st, e.at) && Completed(st.G, e);
    assert CompletedOver(c, st.G, e, Items(st, e.from), Items(st, e.at));
  }

  lemma ChartScansClass(c: Problem, st: State, x: Item, n: nat)
    requires Finished(c, st) && x in ChartItems(c, st) && x.at < |c.w|
    requires n in c.g.classes && WaitsFor(c.g.prods, x, NT(n)) && c.w[x.at] in c.g.classes[n]
    ensures Advance(x, x.at + 1) in ChartItems(c, st)
  {
    hide Reach, Nullable, Predicted, Scanned, Cached, ClosedNull;
    ChartItemSettled(c, st, x);
    assert x in Items(st, x.at);
    var e := Item(x.at + 1, st.ps[(n, c.w[x.at])], x.at, 1);
    assert Settled(c, st, x.at + 1);
    assert e in Items(st, x.at + 1) && Completed(st.G, e);
    assert CompletedOver(c, st.G, e, Items(st, e.from), Items(st, e.at));
  }

  /** Settled sets are closed under every rule of the naive closure. */
  lemma FinishedIsClosed(c: Problem, st: State)
    requires Finished(c, st)
    ensures Closed(c.g, c.w, c.eof, true, ChartItems(c, st))
  {
    hide Reach, Nullable, Settled, Finished;
    var C := ChartItems(c, st);
    FinishedPredicts(c, st);
    forall x, e | x in C && e in C && Completes(c.g, e, x) ensures Advance(x, e.at) in C {
      ChartCompletes(c, st, x, e);
    }
    forall x, n | x in C && x.at < |c.w| && n in c.g.classes && WaitsFor(c.g.prods, x, NT(n))
        && c.w[x.at] in c.g.classes[n]
      ensures Advance(x, x.at + 1) in C
    {
      ChartScansClass(c, st, x, n);
    }
  }

  lemma FinishedPredicts(c: Problem, st: State)
    requires Finished(c, st)
    ensures ClosedInit(c.g, ChartItems(c, st)) && ClosedPredict(c.g, c.w, c.eof, true, ChartItems(c, st))
    ensures ClosedScan(c.g, c.w, ChartItems(c, st)) && ClosedNull(c.g, ChartItems(c, st))
  {
    hide Reach, Nullable, Sound, ClassScanned, Cached, CompletedOver;
    var C := ChartItems(c, st);
    forall x | x in C ensures x in Items(st, x.at) && Settled(c, st, x.at) {
      ChartItemSettled(c, st, x);
    }
    forall x | x in C && StepsOverNull(c.g.prods, x) ensures Advance(x, x.at) in C {
      var N := iset y | y in Items(st, x.at) && y.at == x.at;
      assert ClosedNull(c.g, N) && x in N;
    }
  }

  /** Set `k + 1` also holds one completed item per class that something reached at `k` waits for and that
      accepts the character there, and nothing else. */
  ghost predicate ClassesExact(c: Problem, st: State) {
    && (forall k: nat, x :: x in Items(st, k) && !Source(c, x) ==> x.at == k && ClassItem(c, st.G, x))
    && (forall y, b :: Reach(c.g, c.w, c.eof, true, y) && y.at < |c.w| && WaitsFor(c.g.prods, y, NT(b))
                       && b in c.g.classes && c.w[y.at] in c.g.classes[b] ==>
                         && (b, c.w[y.at]) in st.ps
                         && Item(y.at + 1, st.ps[(b, c.w[y.at])], y.at, 1) in Items(st, y.at + 1))
  }

  lemma FinishedClassesExact(c: Problem, st: State)
    requires Finished(c, st) && ChartExact(c, st)
    ensures ClassesExact(c, st)
  {
    hide Reach, Nullable, Predicted, Scanned, Cached, ClosedNull, CompletedOver;
    assert forall k: nat, x :: x in Items(st, k) ==> x.at == k && Sound(c, st.G, x);
    forall y, b | Reach(c.g, c.w, c.eof, true, y) && y.at < |c.w| && WaitsFor(c.g.prods, y, NT(b))
                  && b in c.g.classes && c.w[y.at] in c.g.classes[b]
      ensures (b, c.w[y.at]) in st.ps && Item(y.at + 1, st.ps[(b, c.w[y.at])], y.at, 1) in Items(st, y.at + 1)
    {
      assert y in Items(st, y.at) && Settled(c, st, y.at);
    }
  }

  lemma FinishedIsExact(c: Problem, st: State)
    requires Finished(c, st)
    ensures ChartExact(c, st)
  {
    hide Nullable, Settled, Closed;
    FinishedIsClosed(c, st);
    assert forall x :: Reach(c.g, c.w, c.eof, true, x) ==> x in ChartItems(c, st);
  }

  // ---- rounds of one position

  /** All source items a set `n` can hold. */
  function Universe(g: Grammar, n: nat): set<Item> {
    set p, m, d | 0 <= p < |g.prods| && 0 <= m <= n && 0 <= d <= |g.prods[p].body| :: Item(n, p, m, d)
  }

  /** Every round that leaves something in `t` has found an item that was not here before. */
  lemma RoundShrinks(c: Problem, st: State, st': State, f: Focus)
    requires Inv(c, st', f) && Steps(st, st', f.n) && st.t == []
    ensures |Universe(c.g, f.n) - Here(st', f.n)| <= |Universe(c.g, f.n) - Here(st, f.n)|
    ensures st'.t != [] ==> |Universe(c.g, f.n) - Here(st', f.n)| < |Universe(c.g, f.n) - Here(st, f.n)|
  {
    hide Reach, Progress, AllSettled, GrammarOK, CacheOK, Shape;
    Bigger(Universe(c.g, f.n) - Here(st', f.n), Universe(c.g, f.n) - Here(st, f.n));
    if st'.t != [] {
      var i := st'.t[0];
      assert i in st'.t && Source(c, i) && Sound(c, st'.G, i);
      assert i in Universe(c.g, f.n);
      Fewer(Universe(c.g, f.n) - Here(st', f.n), Universe(c.g, f.n) - Here(st, f.n), i);
    }
  }

  /** The items of a set at the given places. */
  function Picked(row: seq<Item>, ks: seq<nat>): (r: seq<Item>)
    requires InBounds(ks, |row|)
    ensures |r| == |ks| && forall i :: 0 <= i < |ks| ==> r[i] == row[ks[i]]
  {
    if ks == [] then [] else Picked(row, ks[..|ks| - 1]) + [row[ks[|ks| - 1]]]
  }

  ghost predicate InBounds(ks: seq<nat>, n: nat) {
    forall i :: 0 <= i < |ks| ==> ks[i] < n
  }

  lemma LooserBounds(ks: seq<nat>, a: nat, b: nat)
    requires InBounds(ks, a) && a <= b
    ensures InBounds(ks, b)
  {
  }

  /** What a round processes: the items to look at again, then the new ones; and what later rounds will look at. */
  ghost predicate SnapshotIs(G: seq<Prod>, row: seq<Item>, n: nat, done: nat, before: seq<nat>, snapshot: seq<Item>,
          revisit: seq<nat>) {
    && done <= |row| && InBounds(before, |row|)
    && snapshot == Picked(row, before) + row[done..]
    && revisit == before + Again(G, row, n, done, |row|)
  }

  lemma SnapshotCovers(G: seq<Prod>, row: seq<Item>, n: nat, done: nat, before: seq<nat>, snapshot: seq<Item>,
          revisit: seq<nat>)
    requires SnapshotIs(G, row, n, done, before, snapshot, revisit)
    ensures ToSet(snapshot) <= ToSet(row) && (forall k :: done <= k < |row| ==> row[k] in snapshot)
    ensures InBounds(revisit, |row|)
  {
    forall k | done <= k < |row| ensures row[k] in snapshot {
      assert row[k] == row[done..][k - done];
    }
    var again := Again(G, row, n, done, |row|);
    forall i | 0 <= i < |again| ensures again[i] < |row| {
      assert again[i] in again;
    }
  }

  /** Whether a round must look at the item again: it is completed and starts where it ends up. */
  predicate LooksAgain(G: seq<Prod>, x: Item, n: nat) {
    x.prod < |G| && x.dot == |G[x.prod].body| && x.from == n
  }

  /** The places between `a` and `b` that later rounds look at again. */
  function Again(G: seq<Prod>, row: seq<Item>, n: nat, a: nat, b: nat): (ks: seq<nat>)
    requires a <= b <= |row|
    ensures forall k :: k in ks <==> a <= k < b && LooksAgain(G, row[k], n)
    decreases b
  {
    if a == b then [] else Again(G, row, n, a, b - 1) + if LooksAgain(G, row[b - 1], n) then [b - 1] else []
  }

  lemma AgainNone(G: seq<Prod>, row: seq<Item>, n: nat, a: nat)
    requires a <= |row|
    ensures Again(G, row, n, a, a) == []
  {
  }

  lemma AgainNext(G: seq<Prod>, row: seq<Item>, n: nat, a: nat, k: nat)
    requires a <= k < |row| && row[k].prod < |G|
    ensures row[a..k + 1] == row[a..k] + [row[k]]
    ensures Again(G, row, n, a, k + 1) ==
      if row[k].dot == |G[row[k].prod].body| && row[k].from == n then Again(G, row, n, a, k) + [k]
          else Again(G, row, n, a, k)
  {
  }

  /** `row` with the items of `t` it lacks, in order. */
  function Flushed(row: seq<Item>, t: seq<Item>): (r: seq<Item>)
    ensures row <= r && ToSet(r) == ToSet(row) + ToSet(t)
    decreases |t|
  {
    if t == [] then row
    else
      var r := Flushed(row, t[..|t| - 1]);
      var i := t[|t| - 1];
      assert t == t[..|t| - 1] + [i];
      assert ToSet(t) == ToSet(t[..|t| - 1]) + {i};
      assert ToSet(r + [i]) == ToSet(r) + {i};
      if i in r then r else r + [i]
  }

  /** Items of the current set below `done` are processed; between rounds the others are still in `t`. */
  ghost predicate Done(st: State, f: Focus, done: nat) {
    done <= |Row(st.S, f.n)| && forall k :: 0 <= k < done ==> Row(st.S, f.n)[k] in f.proc
  }

  lemma FlushKeepsInv(c: Problem, st: State, f: Focus, done: nat)
    requires Inv(c, st, f) && MemosOK(c, st, f.n) && (f.arrived <= f.proc || st.t == []) && Done(st, f, done)
    ensures var st' := st.(S := st.S[f.n := Flushed(Row(st.S, f.n), st.t)], t := []);
            && Inv(c, st', f) && MemosOK(c, st', f.n) && Done(st', f, done) && Here(st', f.n) == Here(st, f.n)
            && Items(st', f.n) == Here(st, f.n) && Grows(st, st', f.n)
  {
    hide Inv, Grows, MemosOK;
    FocusBound(c, st, f);
    FocusArrived(c, st, f);
    var S' := st.S[f.n := Flushed(Row(st.S, f.n), st.t)];
    MoveKeepsInv(c, st, f, S', []);
    MemosSpread(c, st, st.(S := S', t := []), f);
  }

  lemma FocusArrived(c: Problem, st: State, f: Focus)
    requires Inv(c, st, f)
    ensures f.arrived <= Items(st, f.n) && f.proc <= Items(st, f.n)
    ensures forall k: nat, x :: x in Items(st, k) ==> x.at == k && x.prod < |st.G|
  {
    hide Reach, Progress, AllSettled;
    assert forall k: nat, x :: x in Items(st, k) ==> Sound(c, st.G, x);
  }

  /** After a round everything in the set is processed or still in `t`. */
  lemma RoundDone(st: State, st': State, f: Focus, f': Focus, done: nat, snapshot: seq<Item>)
    requires Steps(st, st', f.n) && Done(st, f, done) && f'.n == f.n && f.proc <= f'.proc && f.arrived <= Items(st, f.n)
    requires forall k :: done <= k < |Row(st.S, f.n)| ==> Row(st.S, f.n)[k] in snapshot
    requires forall i :: 0 <= i < |snapshot| ==> snapshot[i] in f'.proc
    ensures Done(st', f', |Row(st.S, f.n)|) && f.arrived <= f'.proc
    ensures st'.t == [] ==> Items(st', f.n) <= f'.proc
  {
    hide Grows, Here;
    forall x | x in Items(st, f.n) ensures x in f'.proc {
      var k :| 0 <= k < |Row(st.S, f.n)| && Row(st.S, f.n)[k] == x;
    }
  }

  lemma DoneBound(st: State, f: Focus, done: nat)
    requires Done(st, f, done)
    ensures done <= |Row(st.S, f.n)|
  {
  }

  lemma RowLonger(st: State, st': State, n: nat)
    requires Steps(st, st', n)
    ensures |Row(st.S, n)| <= |Row(st'.S, n)|
  {
  }

  lemma NoMemos(c: Problem, st: State, n: nat)
    requires st.memo == map[]
    ensures MemosOK(c, st, n)
  {
  }

  lemma GrowsReflexive(st: State, n: nat)
    ensures Grows(st, st, n)
  {
  }

  lemma GrowsChain(a: State, b: State, d: State, n: nat)
    requires Grows(a, b, n) && Grows(b, d, n)
    ensures Grows(a, d, n)
  {
    assert forall k: nat :: k < n ==> Row(d.S, k) == Row(b.S, k) == Row(a.S, k);
  }

  lemma GrowsTransitive(a: State, b: State, d: State, n: nat)
    requires Grows(a, b, n) && Steps(b, d, n)
    ensures Grows(a, d, n)
  {
    assert forall k: nat :: k < n ==> Row(d.S, k) == Row(b.S, k) == Row(a.S, k);
  }

  // ---- the first and the last position

  ghost predicate StartsBelow(c: Problem, H: set<Item>, n: nat) {
    forall p :: 0 <= p < |c.g.prods| && p < n && c.g.prods[p].head == c.g.start ==> Item(0, p, 0, 0) in H
  }

  ghost predicate Starts(c: Problem, H: set<Item>) {
    StartsBelow(c, H, |c.g.prods|)
  }

  lemma StartSound(c: Problem, st: State, f: Focus, p: nat)
    requires Inv(c, st, f) && p < |st.G| && st.G[p].head == c.g.start
    ensures p < |c.g.prods| && st.G[p] == c.g.prods[p] && Sound(c, st.G, Item(0, p, 0, 0))
    ensures Addable(c, Item(0, p, 0, 0))
  {
    hide Reach, Progress, AllSettled, ItemsOK, CacheOK, Shape;
    ReachInit(c.g, c.w, c.eof, true, p);
  }

  lemma StartsAll(c: Problem, st: State, f: Focus, n: nat)
    requires Inv(c, st, f) && StartsBelow(c, Here(st, 0), n) && n == |st.G|
    ensures Starts(c, Here(st, 0))
  {
  }

  lemma StartsNext(c: Problem, st: State, st': State, f: Focus, p: nat)
    requires Inv(c, st, f) && Steps(st, st', 0) && StartsBelow(c, Here(st, 0), p) && p < |st.G|
    requires st.G[p].head == c.g.start ==> Item(0, p, 0, 0) in Here(st', 0)
    ensures StartsBelow(c, Here(st', 0), p + 1)
  {
    hide Inv, Here, Items, WellFormed;
    if p < |c.g.prods| {
      SourceFirst(c, st, f, p);
    }
  }

  lemma SourceFirst(c: Problem, st: State, f: Focus, p: nat)
    requires Inv(c, st, f) && p < |c.g.prods|
    ensures p < |st.G| && st.G[p] == c.g.prods[p]
  {
    hide ItemsOK, CacheOK, AllSettled, Shape, Progress, WellFormed;
  }

  lemma GrammarAnyRows(c: Problem, st: State)
    requires GrammarOK(c, st)
    ensures forall S, t, cache, memo :: GrammarOK(c, State(st.G, st.ps, S, t, cache, memo))
  {
  }

  lemma GrammarAnyInput(c: Problem, st: State, c': Problem)
    requires GrammarOK(c, st) && c'.g == c.g && IsSentinel(c'.eof) && NoZeros(c'.g, c'.w, c'.eof)
    ensures forall S, t, cache, memo :: GrammarOK(c', State(st.G, st.ps, S, t, cache, memo))
  {
  }

  lemma StartsKept(c: Problem, st: State, st': State, n: nat)
    requires Grows(st, st', n) && st'.t == []
    requires Starts(c, if n == 0 then Here(st, 0) else Items(st, 0))
    ensures Starts(c, Items(st', 0))
  {
  }

  lemma LastSettles(c: Problem, st: State, f: Focus)
    requires Inv(c, st, f) && f.n == |c.w| && Settled(c, st, f.n) && Starts(c, Items(st, 0))
    ensures Finished(c, st) && GrammarOK(c, st)
  {
    hide Settled, Progress, ItemsOK, CacheOK, GrammarOK;
  }

  /** The chart holds a completed start production over the whole input iff the grammar derives the input. */
  lemma FoundIsExact(c: Problem, st: State)
    requires GrammarOK(c, st) && ChartExact(c, st)
    ensures (exists p :: && 0 <= p < |st.G| && st.G[p].head == c.g.start
                         && Item(|c.w|, p, 0, |st.G[p].body|) in Items(st, |c.w|))
            <==> Derives(Live(c.g), c.w, NT(c.g.start), 0, |c.w|)
  {
    hide Reach, Derives;
    ReachAcceptsExactly(c.g, c.w, c.eof, true);
    assert forall p :: 0 <= p < |c.g.prods| ==> st.G[p] == c.g.prods[p];
    forall p | 0 <= p < |st.G| && st.G[p].head == c.g.start
      ensures p < |c.g.prods| && st.G[p] == c.g.prods[p]
      ensures Item(|c.w|, p, 0, |st.G[p].body|) in Items(st, |c.w|) <==>
              Reach(c.g, c.w, c.eof, true, WholeItem(c.g, c.w, p))
    {
    }
  }

  // ---- what the error report adds afterwards

  ghost predicate RowExact(c: Problem, row: seq<Item>, n: nat, look: bool) {
    forall x :: Source(c, x) ==> (x in row <==> x.at == n && Reach(c.g, c.w, c.eof, look, x))
  }

  /** The end of the input refuses every terminal and class, whichever way it reads. */
  lemma EndRefuses(g: Grammar, w: seq<int>, a: int, b: int, p: nat, n: nat)
    requires NoSentinels(g) && IsSentinel(a) && IsSentinel(b) && p < |g.prods|
    ensures FirstCanMatch(g, g.prods[p].body, CharAt(w, a, n)) == FirstCanMatch(g, g.prods[p].body, CharAt(w, b, n))
  {
  }

  /** The productions below `p` that the lookahead skipped for `x` have been put back. */
  ghost predicate Restored(c: Problem, row: seq<Item>, n: nat, x: Item, p: nat) {
    forall q :: 0 <= q < p && q < |c.g.prods| && c.g.prods[q].head !in c.g.classes
                && WaitsFor(c.g.prods, x, NT(c.g.prods[q].head))
                && !FirstCanMatch(c.g, c.g.prods[q].body, CharAt(c.w, c.eof, n)) ==>
                  Item(n, q, n, 0) in row
  }

  /** Only skipped predictions have been added. */
  ghost predicate OnlySkipped(c: Problem, before: seq<Item>, row: seq<Item>, n: nat) {
    before <= row && forall k :: |before| <= k < |row| ==> row[k].at == n && Skipped(c.g, c.w, c.eof, row[k])
  }

  lemma NothingSkipped(c: Problem, row: seq<Item>, n: nat)
    ensures OnlySkipped(c, row, row, n)
  {
  }

  lemma RowFits(c: Problem, st: State, row: seq<Item>, n: nat, x: Item)
    requires GrammarOK(c, st) && RowExact(c, row, n, true) && x in row
    ensures Source(c, x) ==> x.prod < |st.G| && st.G[x.prod] == c.g.prods[x.prod] && x.at == n
  {
    hide Reach;
  }

  lemma NothingToRestore(c: Problem, st: State, row: seq<Item>, n: nat, x: Item)
    requires GrammarOK(c, st) && Source(c, x)
    requires x.dot < |st.G[x.prod].body| && st.G[x.prod].body[x.dot].NT? ==> st.G[x.prod].body[x.dot].n in c.g.classes
    ensures Restored(c, row, n, x, |c.g.prods|)
  {
    hide FirstCanMatch;
    assert st.G[x.prod] == c.g.prods[x.prod];
  }

  lemma RestoredGrows(c: Problem, row: seq<Item>, row': seq<Item>, n: nat, x: Item, p: nat)
    requires Restored(c, row, n, x, p) && row <= row'
    ensures Restored(c, row', n, x, p)
  {
    hide FirstCanMatch;
    assert forall i :: i in row ==> i in row';
  }

  ghost predicate AllRestored(c: Problem, row: seq<Item>, n: nat, snap: seq<Item>, k: nat) {
    k <= |snap| && forall i :: 0 <= i < k && Source(c, snap[i]) ==> Restored(c, row, n, snap[i], |c.g.prods|)
  }

  lemma AllRestoredNext(c: Problem, row: seq<Item>, row': seq<Item>, n: nat, snap: seq<Item>, k: nat)
    requires AllRestored(c, row, n, snap, k) && row <= row' && k < |snap|
    requires Source(c, snap[k]) ==> Restored(c, row', n, snap[k], |c.g.prods|)
    ensures AllRestored(c, row', n, snap, k + 1)
  {
    hide Restored;
    forall i | 0 <= i < k && Source(c, snap[i]) ensures Restored(c, row', n, snap[i], |c.g.prods|) {
      RestoredGrows(c, row, row', n, snap[i], |c.g.prods|);
    }
  }

  /** A production refused at the end of the chart was refused before, so it is a skipped prediction. */
  lemma SkippedAgain(c: Problem, st: State, before: seq<Item>, row: seq<Item>, n: nat, x: Item, p: nat)
    requires GrammarOK(c, st) && RowExact(c, before, n, true) && OnlySkipped(c, before, row, n)
    requires x in before && Source(c, x) && p < |st.G| && st.G[p].head !in c.g.classes
    requires WaitsFor(c.g.prods, x, NT(st.G[p].head))
    ensures p < |c.g.prods|
    ensures FirstCanMatch(c.g, st.G[p].body, CharAt(c.w, 0, n)) ==
            FirstCanMatch(c.g, st.G[p].body, CharAt(c.w, c.eof, n))
    ensures !FirstCanMatch(c.g, st.G[p].body, CharAt(c.w, 0, n)) ==> OnlySkipped(c, before, row + [Item(n, p, n, 0)], n)
  {
    hide Reach, FirstCanMatch;
    assert st.G[p] == c.g.prods[p];
    EndRefuses(c.g, c.w, 0, c.eof, p, n);
    if !FirstCanMatch(c.g, st.G[p].body, CharAt(c.w, 0, n)) {
      assert Reach(c.g, c.w, c.eof, true, x) && x.at == n;
      assert Skipped(c.g, c.w, c.eof, Item(n, p, n, 0));
    }
  }

  lemma RestoredNext(c: Problem, st: State, row: seq<Item>, row': seq<Item>, n: nat, x: Item, p: nat)
    requires GrammarOK(c, st) && Restored(c, row, n, x, p) && row <= row' && p < |st.G|
    requires p < |c.g.prods| && WaitsFor(c.g.prods, x, NT(st.G[p].head)) ==>
               FirstCanMatch(c.g, st.G[p].body, CharAt(c.w, c.eof, n)) || Item(n, p, n, 0) in row'
    ensures Restored(c, row', n, x, p + 1)
  {
    hide FirstCanMatch;
    assert p < |c.g.prods| ==> st.G[p] == c.g.prods[p];
    assert forall i :: i in row ==> i in row';
  }

  lemma RestoredAll(c: Problem, st: State, row: seq<Item>, n: nat, x: Item)
    requires GrammarOK(c, st) && Restored(c, row, n, x, |st.G|)
    ensures Restored(c, row, n, x, |c.g.prods|)
  {
    hide FirstCanMatch;
  }

  lemma RestoredIsUnpruned(c: Problem, before: seq<Item>, row: seq<Item>, n: nat)
    requires RowExact(c, before, n, true) && OnlySkipped(c, before, row, n)
    requires AllRestored(c, row, n, before, |before|)
    ensures RowExact(c, row, n, false)
  {
    hide Reach, FirstCanMatch;
    forall x | Source(c, x) ensures x in row <==> x.at == n && Reach(c.g, c.w, c.eof, false, x) {
      hide Skipped;
      LookaheadIsTransparent(c.g, c.w, c.eof, x);
      if x in row && x !in before {
        var k :| 0 <= k < |row| && row[k] == x;
        assert k >= |before|;
      }
      if x.at == n && Skipped(c.g, c.w, c.eof, x) {
        SkippedIsRestored(c, before, row, n, x);
      }
    }
  }

  lemma SkippedIsRestored(c: Problem, before: seq<Item>, row: seq<Item>, n: nat, x: Item)
    requires RowExact(c, before, n, true) && x.at == n && Skipped(c.g, c.w, c.eof, x)
    requires AllRestored(c, row, n, before, |before|)
    ensures x in row
  {
    hide Reach, FirstCanMatch;
    var y :| Reach(c.g, c.w, c.eof, true, y) && y.at == x.at && WaitsFor(c.g.prods, y, NT(c.g.prods[x.prod].head));
    assert y in before && Source(c, y);
    assert x == Item(n, x.prod, n, 0);
  }
}
