/** The recognizer itself: the parser's fields and the methods that update them in place. */
module EarleyParser {
  import opened Grammars
  import opened EarleyItems
  import opened EarleyChart

  class Parser {
    const g: Grammar
    var w: seq<int>              // the input
    var eof: int                 // what the input reports past its end
    var nullables: set<nat>
    var G: seq<Prod>             // the grammar's productions, then one `class => ch` per scanned class and character
    var ps: map<(nat, int), nat> // (class, character) -> its production in G
    var S: seq<seq<Item>>        // the Earley sets, in insertion order
    var t: seq<Item>             // items waiting to enter the current set
    var cache: seq<seq<Wait>>    // per position, the items that wait for a nonterminal; append only
    var memo: map<Item, nat>     // per completed item, how much of its waiting list it has read
    var revisit: seq<nat>        // indices into the current set revisited every round
    var snapshot: seq<Item>      // what the current round processes

    ghost function P(): Problem
      reads this
    {
      Problem(g, w, eof)
    }

    ghost function Now(): State
      reads this
    {
      State(G, ps, S, t, cache, memo)
    }

    ghost predicate Valid()
      reads this
    {
      IsSentinel(eof) && NullablesExact(g, nullables) && GrammarOK(P(), Now())
    }

    ghost predicate Base(f: Focus)
      reads this
    {
      NullablesExact(g, nullables) && Inv(P(), Now(), f)
    }

    ghost predicate Working(f: Focus)
      reads this
    {
      Base(f) && MemosOK(P(), Now(), f.n)
    }

    constructor (grammar: Grammar)
      requires WellFormed(grammar)
      ensures Valid() && g == grammar
    {
      g := grammar;
      G, ps := grammar.prods, map[];
      w, eof := [], -1;
      S, t, cache, memo, revisit, snapshot := [], [], [], map[], [], [];
      new;
      nullables := ComputeNullables(g);
    }

    method Add(i: Item) returns (inserted: bool)
      requires i.at < |S| && i.prod < |G| && i.dot <= |G[i.prod].body|
      modifies `t
      ensures t == AddTo(G, nullables, S[i.at], old(t), i)
      ensures inserted <==> i !in S[i.at] && i !in old(t)
      decreases |G[i.prod].body| - i.dot
    {
      if i in S[i.at] || i in t {
        return false;
      }
      t := t + [i];
      if NullableAt(nullables, G[i.prod].body, i.dot) {
        var _ := Add(Advance(i, i.at));
      }
      return true;
    }

    /** Adds a reached item of the focus set; nothing already established is lost. */
    method AddAt(i: Item, ghost f: Focus)
      requires Base(f) && i.at == f.n && i.prod < |g.prods| && i.prod < |G| && G[i.prod] == g.prods[i.prod]
      requires i.dot <= |G[i.prod].body| && Sound(P(), G, i) && Addable(P(), i) && f.n < |S|
      modifies `t
      ensures Base(f) && Steps(old(Now()), Now(), f.n) && i in Here(Now(), f.n)
    {
      hide Inv, NullablesExact, Sound, Addable, AddTo, Here, Steps;
      ghost var before := Now();
      AddKeepsInv(P(), before, nullables, f, i);
      var _ := Add(i);
      assert Now() == before.(t := t);
    }

    /** Puts a waiting item on the list of its position, once. */
    method CacheInsert(nt: nat, pos: nat, i: Item)
      modifies `cache
      ensures cache == Insert(old(cache), pos, Wait(nt, i))
    {
      if |cache| <= pos {
        cache := Padded(cache, pos + 1);
      }
      if Wait(nt, i) !in cache[pos] {
        cache := cache[pos := cache[pos] + [Wait(nt, i)]];
      }
    }

    method CacheAt(nt: nat, x: Item, ghost f: Focus)
      requires Working(f) && x in Items(Now(), f.n) && x.at == f.n && WaitsFor(g.prods, x, NT(nt))
      modifies `cache
      ensures Working(f) && Steps(old(Now()), Now(), f.n) && Wait(nt, x) in Row(cache, f.n)
    {
      hide Inv, MemosOK, NullablesExact, Steps;
      ghost var before := Now();
      CacheKeepsInv(P(), before, f, x, nt);
      CacheInsert(nt, x.at, x);
      assert Now() == before.(cache := cache);
      MemosGrow(P(), before, Now(), f);
    }

    /** One production of the nonterminal `x` waits for: `x` goes on the list, and the production starts if
        the next character allows it. */
    method PredictProduction(x: Item, p: nat, ch: int, ghost f: Focus)
      requires Working(f) && x in Items(Now(), f.n) && x.at == f.n && f.n < |S| && ch == CharAt(w, eof, f.n)
      requires p < |G| && G[p].head !in g.classes && WaitsFor(g.prods, x, NT(G[p].head))
      modifies `t, `cache
      ensures Working(f) && Steps(old(Now()), Now(), f.n)
      ensures Wait(G[p].head, x) in Row(cache, f.n)
      ensures FirstCanMatch(g, G[p].body, ch) ==> Item(f.n, p, f.n, 0) in Here(Now(), f.n)
    {
      hide Inv, MemosOK, NullablesExact, FirstCanMatch, Sound, Steps, Here;
      ghost var before := Now();
      CacheAt(G[p].head, x, f);
      ghost var cached := Now();
      if FirstCanMatch(g, G[p].body, ch) {
        PredictedSound(P(), cached, f, x, p);
        AddAt(Item(x.at, p, x.at, 0), f);
        MemosGrow(P(), cached, Now(), f);
        StepsTransitive(before, cached, Now(), f.n);
      }
    }

    /** Starts every production of the nonterminal `x` waits for that the next character allows. */
    method Predict(x: Item, ch: int, ghost f: Focus)
      requires Working(f) && x in Items(Now(), f.n) && x.at == f.n && f.n < |S| && ch == CharAt(w, eof, f.n)
      requires x.prod < |G| && x.dot < |G[x.prod].body| && G[x.prod].body[x.dot].NT?
      requires WaitsFor(g.prods, x, G[x.prod].body[x.dot]) && G[x.prod].body[x.dot].n !in g.classes
      modifies `t, `cache
      ensures Working(f) && Steps(old(Now()), Now(), f.n)
      ensures PredictedUpTo(P(), Now(), f.n, x, G[x.prod].body[x.dot].n, |G|)
    {
      hide Inv, MemosOK, NullablesExact, FirstCanMatch, Steps, Here, PredictedUpTo;
      var nt := G[x.prod].body[x.dot].n;
      ghost var before := Now();
      StepsReflexive(before, f.n);
      PredictedNone(P(), before, f.n, x, nt);
      var p := 0;
      while p < |G|
        invariant 0 <= p <= |G| && Working(f) && Steps(before, Now(), f.n)
        invariant PredictedUpTo(P(), Now(), f.n, x, nt, p)
      {
        ghost var mid := Now();
        StepsReflexive(mid, f.n);
        if G[p].head == nt {
          PredictProduction(x, p, ch, f);
          StepsTransitive(before, mid, Now(), f.n);
        }
        PredictedNext(P(), mid, Now(), f.n, x, nt, p);
        p := p + 1;
      }
    }

    static function TerminalOf(l: Lit): int {
      match l
      case Null => 0
      case T(c) => c
      case NT(_) => 0
    }

    /** The comparison scanning makes, and the set the advanced item goes into: this one when the character is a 0. */
    method ScanChar(x: Item, n: nat, ch: int)
      requires x.prod < |G| && x.dot < |G[x.prod].body|
      modifies `S
      ensures var j := Advance(x, n + if ch == 0 then 0 else 1);
              S == if ch == TerminalOf(G[x.prod].body[x.dot]) then Insert(old(S), j.at, j) else old(S)
    {
      var j := Advance(x, n + if ch == 0 then 0 else 1);
      if ch != TerminalOf(G[x.prod].body[x.dot]) {
        return;
      }
      S := Insert(S, j.at, j);
    }

    /** Advances `x` over the current character, straight into the set it reaches. */
    method Scan(x: Item, n: nat, ch: int, ghost f: Focus)
      requires Working(f) && x in Items(Now(), f.n) && n == f.n && ch == CharAt(w, eof, f.n)
      requires x.prod < |G| && x.dot < |G[x.prod].body| && !G[x.prod].body[x.dot].NT?
      requires WaitsFor(g.prods, x, G[x.prod].body[x.dot])
      modifies `S
      ensures Working(f) && Steps(old(Now()), Now(), f.n)
      ensures f.n < |w| && WaitsFor(g.prods, x, T(w[f.n])) ==> Advance(x, f.n + 1) in Items(Now(), f.n + 1)
    {
      hide Inv, MemosOK, NullablesExact, Steps;
      ghost var before := Now();
      StepsReflexive(before, f.n);
      if ch == TerminalOf(G[x.prod].body[x.dot]) {
        ScanKeepsInv(P(), before, f, x, ch);
      }
      ScanChar(x, n, ch);
      if ch == TerminalOf(G[x.prod].body[x.dot]) {
        MemosGrow(P(), before, Now(), f);
      } else {
        assert Now() == before;
      }
    }

    /** The production `class => ch`, made on first use; -1 when the class rejects `ch`. */
    method GetClassProduction(b: nat, ch: int) returns (p: int)
      requires b in g.classes
      modifies `G, `ps
      ensures p == -1 <==> (b, ch) !in old(ps) && ch !in g.classes[b]
      ensures p == -1 ==> G == old(G) && ps == old(ps)
      ensures (b, ch) in old(ps) ==> G == old(G) && ps == old(ps)
      ensures (b, ch) !in old(ps) && ch in g.classes[b] ==>
                G == old(G) + [Prod(b, [T(ch)])] && ps == old(ps)[(b, ch) := |old(G)|]
      ensures p != -1 ==> (b, ch) in ps && p == ps[(b, ch)]
    {
      if (b, ch) in ps {
        return ps[(b, ch)];
      }
      if ch !in g.classes[b] {
        return -1;
      }
      G := G + [Prod(b, [T(ch)])];
      ps := ps[(b, ch) := |G| - 1];
      return |G| - 1;
    }

    /** Scans a character class: the class completes in the next set and `x` waits for it. */
    method ScanClass(x: Item, n: nat, ch: int, ghost f: Focus)
      requires Working(f) && x in Items(Now(), f.n) && n == f.n && x.at == n && ch == CharAt(w, eof, f.n)
      requires x.prod < |g.prods| && x.prod < |G| && x.dot < |G[x.prod].body| && G[x.prod].body[x.dot].NT?
      requires WaitsFor(g.prods, x, G[x.prod].body[x.dot]) && G[x.prod].body[x.dot].n in g.classes
      modifies `G, `ps, `S, `cache
      ensures Working(f) && Steps(old(Now()), Now(), f.n)
      ensures var b := old(G[x.prod].body[x.dot].n);
              f.n < |w| && w[f.n] in g.classes[b] ==>
                && (b, w[f.n]) in ps && Item(f.n + 1, ps[(b, w[f.n])], f.n, 1) in Items(Now(), f.n + 1)
                && Wait(b, x) in Row(cache, f.n)
    {
      hide Inv, MemosOK, NullablesExact, Steps, Sound, Arrival, Here;
      var b := G[x.prod].body[x.dot].n;
      ghost var s0 := Now();
      ClassRejectsEnd(P(), s0, f, b);
      StepsReflexive(s0, f.n);
      if (b, ch) !in ps && ch in g.classes[b] {
        ClassProductionKeepsInv(P(), s0, f, b, ch);
      }
      var p := GetClassProduction(b, ch);
      if p == -1 {
        return;
      }
      ghost var s1 := Now();
      MemosGrow(P(), s0, s1, f);
      CacheAt(b, x, f);
      ghost var s2 := Now();
      StepsTransitive(s0, s1, s2, f.n);
      var k := Item(if IsSentinel(ch) then n else n + 1, p, n, 1);
      ClassArrives(P(), s2, f, x, b, p);
      ArriveKeepsInv(P(), s2, f, k);
      S := Insert(S, k.at, k);
      MemosGrow(P(), s2, Now(), f);
      StepsTransitive(s0, s2, Now(), f.n);
    }

    /** One entry of the waiting list: it advances over `x` if it waits for the head of `x`, is still in
        its set and still waits. */
    method AdvanceWaiter(x: Item, e: Wait, ghost f: Focus)
      requires Base(f) && x in Items(Now(), f.n) && x.at == f.n && f.n < |S| && Completed(G, x)
      requires e in Row(cache, x.from)
      modifies `t
      ensures Base(f) && Steps(old(Now()), Now(), f.n)
      ensures e.nt == G[x.prod].head ==> Advance(e.it, f.n) in Here(Now(), f.n)
    {
      hide Inv, NullablesExact, Steps, Here, Sound, Items;
      ghost var before := Now();
      if e.nt == G[x.prod].head {
        CompletionAdvances(P(), before, f, x, e);
        if e.it.dot < |G[e.it.prod].body| && e.it in Row(S, e.it.at) {
          AddAt(Advance(e.it, x.at), f);
        }
      } else {
        StepsReflexive(before, f.n);
      }
    }

    /** Advances what waits for the head of the completed item `x`, reading only the part of the waiting
        list it has not read before. */
    method Complete(x: Item, ghost f: Focus)
      requires Working(f) && x in Items(Now(), f.n) && x.at == f.n && f.n < |S| && Completed(G, x)
      modifies `t, `memo
      ensures Working(f) && Steps(old(Now()), Now(), f.n)
      ensures x in memo && memo[x] == |Row(cache, x.from)|
    {
      hide Inv, MemosOK, NullablesExact, Steps, Here, Handled, AddTo;
      ghost var s0 := Now();
      var _ := Add(x);
      var row := Row(cache, x.from);
      var k := if x in memo then memo[x] else 0;
      HandledStarts(P(), s0, f.n, x);
      HandledBound(s0, f.n, x, k);
      MemoStep(P(), s0, f, x, memo[x := |row|], k);
      ghost var others := memo - {x};
      memo := memo[x := |row|];
      assert Now() == WithMemo(s0, memo);
      while k < |row|
        invariant k <= |row| && Base(f) && Steps(s0, Now(), f.n) && Handled(Now(), f.n, x, k)
        invariant MemosOK(P(), WithMemo(Now(), others), f.n) && memo == s0.memo[x := |row|]
      {
        ghost var mid := Now();
        AdvanceWaiter(x, row[k], f);
        StepsTransitive(s0, mid, Now(), f.n);
        OthersGrow(P(), mid, Now(), f, others);
        HandledNext(mid, Now(), f.n, x, k);
        k := k + 1;
      }
      MemoSet(P(), Now(), f.n, x, others);
    }

    /** Completes, scans or predicts with one item of the current set. */
    method Process(x: Item, n: nat, ch: int, ghost f: Focus)
      requires Working(f) && x in Items(Now(), f.n) && n == f.n && ch == CharAt(w, eof, f.n)
      modifies `G, `ps, `S, `t, `cache, `memo
      ensures Working(f.(proc := f.proc + {x})) && Steps(old(Now()), Now(), f.n)
    {
      hide Inv, MemosOK, NullablesExact, Steps, Here, PredictedUpTo;
      ItemInFocus(P(), Now(), f, x);
      if x.dot == |G[x.prod].body| {
        Complete(x, f);
        CompleteDone(P(), Now(), f, x);
      } else {
        ghost var l := G[x.prod].body[x.dot];
        if G[x.prod].body[x.dot].NT? {
          if G[x.prod].body[x.dot].n in g.classes {
            ghost var before := Now();
            ScanClass(x, n, ch, f);
            StepsKeep(before, Now(), f.n, x);
            ClassDone(P(), Now(), f, x, l.n);
          } else {
            Predict(x, ch, f);
            PredictDone(P(), Now(), f, x, l.n);
          }
        } else {
          ghost var before := Now();
          Scan(x, n, ch, f);
          StepsKeep(before, Now(), f.n, x);
          ScanDone(P(), Now(), f, x, l);
        }
      }
    }

    /** Moves the items of `t` into the current set. */
    method Flush(n: nat, ghost f: Focus, ghost done: nat)
      requires Working(f) && n == f.n && n < |S| && (f.arrived <= f.proc || t == []) && Done(Now(), f, done)
      modifies `S, `t
      ensures Working(f) && Done(Now(), f, done) && t == [] && n < |S| && old(S[n]) <= S[n]
      ensures Items(Now(), n) == Here(Now(), n) == Here(old(Now()), n) && Grows(old(Now()), Now(), n)
    {
      hide Inv, MemosOK, NullablesExact, Here, Grows;
      FlushKeepsInv(P(), Now(), f, done);
      var row := InsertAll(S[n], t);
      S := S[n := row];
      t := [];
    }

    /** A set takes each item once. */
    static method InsertAll(before: seq<Item>, items: seq<Item>) returns (row: seq<Item>)
      ensures row == Flushed(before, items)
    {
      row := before;
      var k := 0;
      while k < |items|
        invariant 0 <= k <= |items| && row == Flushed(before, items[..k])
      {
        assert items[..k + 1][..k] == items[..k];
        if items[k] !in row {
          row := row + [items[k]];
        }
        k := k + 1;
      }
      assert items[..|items|] == items;
    }

    /** The items to process this round: those to revisit, then those added since the last round. Completed
        items that start here are revisited in every later round. */
    method TakeSnapshot(n: nat, done: nat)
      requires n < |S| && done <= |S[n]| && InBounds(revisit, |S[n]|)
      requires forall x :: x in S[n] ==> x.prod < |G|
      modifies `revisit, `snapshot
      ensures SnapshotIs(G, S[n], n, done, old(revisit), snapshot, revisit)
      ensures ToSet(snapshot) <= ToSet(S[n]) && (forall k :: done <= k < |S[n]| ==> S[n][k] in snapshot)
      ensures InBounds(revisit, |S[n]|)
    {
      hide ToSet;
      PickRevisited(S[n]);
      TakeNew(n, done);
      SnapshotCovers(G, S[n], n, done, old(revisit), snapshot, revisit);
    }

    method PickRevisited(row: seq<Item>)
      requires InBounds(revisit, |row|)
      modifies `snapshot
      ensures snapshot == Picked(row, revisit)
    {
      snapshot := [];
      var i := 0;
      while i < |revisit|
        invariant 0 <= i <= |revisit| && snapshot == Picked(row, revisit[..i])
      {
        assert revisit[..i + 1][..i] == revisit[..i];
        snapshot := snapshot + [row[revisit[i]]];
        i := i + 1;
      }
      assert revisit[..i] == revisit;
    }

    method TakeNew(n: nat, done: nat)
      requires n < |S| && done <= |S[n]| && forall x :: x in S[n] ==> x.prod < |G|
      modifies `revisit, `snapshot
      ensures snapshot == old(snapshot) + S[n][done..]
      ensures revisit == old(revisit) + Again(G, S[n], n, done, |S[n]|)
    {
      hide Again, LooksAgain;
      var row, k := S[n], done;
      AgainNone(G, row, n, done);
      while k < |row|
        invariant done <= k <= |row| && snapshot == old(snapshot) + row[done..k]
        invariant revisit == old(revisit) + Again(G, row, n, done, k)
      {
        var x := row[k];
        AgainNext(G, row, n, done, k);
        snapshot := snapshot + [x];
        if x.dot == |G[x.prod].body| && x.from == n {
          revisit := revisit + [k];
        }
        k := k + 1;
      }
    }

    /** Processes the items of the snapshot, which processing never changes. */
    method ProcessSnapshot(n: nat, ch: int, ghost f: Focus) returns (ghost f': Focus)
      requires Working(f) && n == f.n && n < |S| && ch == CharAt(w, eof, n) && ToSet(snapshot) <= Items(Now(), n)
      modifies `G, `ps, `S, `t, `cache, `memo
      ensures Working(f') && f' == f.(proc := f'.proc) && f.proc <= f'.proc && Steps(old(Now()), Now(), n)
      ensures n < |S| && forall i :: 0 <= i < |snapshot| ==> snapshot[i] in f'.proc
    {
      hide Inv, MemosOK, NullablesExact, Here, Steps;
      ghost var before := Now();
      f' := f;
      StepsReflexive(before, n);
      var k := 0;
      while k < |snapshot|
        invariant 0 <= k <= |snapshot| && f' == f.(proc := f'.proc) && f.proc <= f'.proc
        invariant Working(f') && Steps(before, Now(), n) && n < |S|
        invariant forall i :: 0 <= i < k ==> snapshot[i] in f'.proc
      {
        ghost var mid := Now();
        assert snapshot[k] in ToSet(snapshot);
        StepsKeep(before, mid, n, snapshot[k]);
        Process(snapshot[k], n, ch, f');
        f' := f'.(proc := f'.proc + {snapshot[k]});
        StepsTransitive(before, mid, Now(), n);
        FocusBound(P(), Now(), f');
        k := k + 1;
      }
    }

    /** One round over the current set. */
    method Round(n: nat, ch: int, done: nat, ghost f: Focus) returns (done': nat, ghost f': Focus)
      requires Working(f) && n == f.n && n < |S| && ch == CharAt(w, eof, n)
      requires (f.arrived <= f.proc || t == []) && Done(Now(), f, done)
      requires InBounds(revisit, |S[n]|)
      modifies `G, `ps, `S, `t, `cache, `memo, `revisit, `snapshot
      ensures Working(f') && f' == f.(proc := f'.proc) && n < |S| && f'.arrived <= f'.proc && Done(Now(), f', done')
      ensures t == [] ==> Items(Now(), n) <= f'.proc
      ensures InBounds(revisit, |S[n]|)
      ensures Grows(old(Now()), Now(), n)
      ensures t != [] ==> |Universe(g, n) - Here(Now(), n)| < |Universe(g, n) - Here(old(Now()), n)|
      ensures |Universe(g, n) - Here(Now(), n)| <= |Universe(g, n) - Here(old(Now()), n)|
    {
      hide Inv, MemosOK, NullablesExact, Here, Grows, Steps, Universe, Done, SnapshotIs, InBounds;
      ghost var s0 := Now();
      DoneBound(s0, f, done);
      ghost var before := |S[n]|;
      Flush(n, f, done);
      LooserBounds(revisit, before, |S[n]|);
      ghost var s1 := Now();
      FocusArrived(P(), s1, f);
      TakeSnapshot(n, done);
      done' := |S[n]|;
      f' := ProcessSnapshot(n, ch, f);
      RoundDone(s1, Now(), f, f', done, snapshot);
      RoundShrinks(P(), s1, Now(), f');
      GrowsTransitive(s0, s1, Now(), n);
      RowLonger(s1, Now(), n);
      LooserBounds(revisit, done', |S[n]|);
    }

    /** Works on one position until a round adds nothing. */
    method Position(n: nat, ch: int, ghost f: Focus) returns (ghost f': Focus)
      requires Working(f) && n == f.n && n < |S| && ch == CharAt(w, eof, n)
      requires f.proc == {} && (f.arrived == {} || t == [])
      modifies `G, `ps, `S, `t, `cache, `memo, `revisit, `snapshot
      ensures Working(f') && f' == f.(proc := f'.proc) && n < |S| && t == [] && memo == map[]
      ensures Settled(P(), Now(), n)
      ensures Grows(old(Now()), Now(), n)
    {
      hide Inv, MemosOK, NullablesExact, Here, Grows, Universe, Settled;
      var done := 0;
      revisit := [];
      f' := f;
      ghost var s0 := Now();
      GrowsReflexive(s0, n);
      var more := true;
      while more
        invariant Working(f') && f' == f.(proc := f'.proc) && n < |S| && Done(Now(), f', done)
        invariant (f'.arrived <= f'.proc || t == []) && (InBounds(revisit, |S[n]|))
        invariant !more ==> t == [] && Items(Now(), n) <= f'.proc
        invariant Grows(s0, Now(), n)
        decreases |Universe(g, n) - Here(Now(), n)|, if more then 1 else 0
      {
        ghost var mid := Now();
        done, f' := Round(n, ch, done, f');
        GrowsChain(s0, mid, Now(), n);
        more := t != [];
      }
      ghost var end := Now();
      MemoIsApart(P(), end, f', map[]);
      GrowsReflexive(end, n);
      memo := map[];
      assert Now() == WithMemo(end, map[]);
      GrowsChain(s0, end, Now(), n);
      NoMemos(P(), Now(), n);
      FocusSettles(P(), Now(), f');
    }

    /** Puts the start symbol's productions in `t`, whatever the first character is. */
    method AddStarts(ghost f: Focus)
      requires Base(f) && f == Focus(0, {}, {}) && |S| > 0
      modifies `t
      ensures Base(f) && Starts(P(), Here(Now(), 0))
    {
      hide Inv, NullablesExact, Here, Steps, Sound;
      var p := 0;
      while p < |G|
        invariant 0 <= p <= |G| && Base(f) && StartsBelow(P(), Here(Now(), 0), p)
      {
        ghost var before := Now();
        StepsReflexive(before, 0);
        if G[p].head == g.start {
          StartSound(P(), before, f, p);
          AddAt(Item(0, p, 0, 0), f);
        }
        StartsNext(P(), before, Now(), f, p);
        p := p + 1;
      }
      StartsAll(P(), Now(), f, p);
    }

    /** Some production of the start symbol, completed over the whole input, is in the last set. */
    method Found() returns (found: bool)
      requires Valid() && ChartExact(P(), Now()) && |w| < |S|
      ensures found <==> Derives(Live(g), w, NT(g.start), 0, |w|)
    {
      hide NullablesExact, ChartExact, Reach, Derives, Live;
      FoundIsExact(P(), Now());
      found := false;
      var p := 0;
      while p < |G| && !found
        invariant 0 <= p <= |G|
        invariant found <==> exists q :: 0 <= q < p && G[q].head == g.start && Item(|w|, q, 0, |G[q].body|) in S[|w|]
      {
        found := G[p].head == g.start && Item(|w|, p, 0, |G[p].body|) in S[|w|];
        p := p + 1;
      }
    }

    /** Recognizes `input`, whose end reads as `end`. Productions with `null` right after a terminal never complete,
        so the language is that of the other productions; where there are such productions, no 0 may be read, neither
        in the input nor at its end. */
    method Parse(input: seq<int>, end: int) returns (found: bool)
      requires Valid() && IsSentinel(end) && NoZeros(g, input, end)
      modifies this
      ensures Valid() && w == input && eof == end
      ensures ChartExact(P(), Now()) && ClassesExact(P(), Now()) && |w| < |S|
      ensures found <==> Derives(Live(g), input, NT(g.start), 0, |input|)
      ensures NullsLead(g) ==> (found <==> Derives(g, input, NT(g.start), 0, |input|))
    {
      hide NullablesExact, Inv, GrammarOK, Settled, Here, Grows, Starts, Finished, ChartExact, ClassesExact, Derives,
        Live, NullsLead;
      GrammarAnyInput(P(), Now(), Problem(g, input, end));
      w, eof := input, end;
      S, t, cache, memo, revisit, snapshot := [[]], [], [], map[], [], [];
      ghost var f := Focus(0, {}, {});
      FocusStarts(P(), Now());
      AddStarts(f);
      var n := 0;
      while true
        invariant n <= |w| && Working(f) && n == f.n && n < |S| && f.proc == {} && (f.arrived == {} || t == [])
        invariant Starts(P(), if n == 0 then Here(Now(), 0) else Items(Now(), 0))
        invariant w == input && eof == end
        decreases |w| - n
      {
        ghost var before := Now();
        f := Position(n, CharAt(w, eof, n), f);
        StartsKept(P(), before, Now(), n);
        FocusBound(P(), Now(), f);
        if n == |w| {
          break;
        }
        FocusMoves(P(), Now(), f, Padded(S, n + 2));
        f := NextFocus(Now(), n);
        S := Padded(S, n + 2);
        n := n + 1;
      }
      LastSettles(P(), Now(), f);
      FinishedIsExact(P(), Now());
      FinishedClassesExact(P(), Now());
      found := Found();
      if NullsLead(g) {
        LiveIsWhole(g);
      }
    }

    /** Inserts into set `n` the productions of what `x` waits for that cannot start with `ch`. */
    method PutBack(x: Item, n: nat, ch: int, ghost before: seq<Item>)
      requires Valid() && n < |S| && RowExact(P(), before, n, true) && OnlySkipped(P(), before, S[n], n)
      requires ch == CharAt(w, 0, n) && x in before && x.prod < |g.prods| && x.dot < |g.prods[x.prod].body|
      requires x.prod < |G| && G[x.prod] == g.prods[x.prod]
      requires g.prods[x.prod].body[x.dot].NT? && g.prods[x.prod].body[x.dot].n !in g.classes
      modifies `S
      ensures |S| == |old(S)| && old(S[n]) <= S[n] && forall k: nat :: k != n ==> Row(S, k) == Row(old(S), k)
      ensures OnlySkipped(P(), before, S[n], n) && Restored(P(), S[n], n, x, |g.prods|)
    {
      hide NullablesExact, Reach, FirstCanMatch, RowExact, OnlySkipped, GrammarOK;
      var nt := G[x.prod].body[x.dot].n;
      ghost var s0, st := S, Now();
      var p := 0;
      while p < |G|
        invariant 0 <= p <= |G| && |S| == |s0| && s0[n] <= S[n] && (forall k: nat :: k != n ==> Row(S, k) == Row(s0, k))
        invariant OnlySkipped(P(), before, S[n], n) && Restored(P(), S[n], n, x, p)
      {
        ghost var row := S[n];
        if G[p].head == nt {
          SkippedAgain(P(), st, before, row, n, x, p);
          if !FirstCanMatch(g, G[p].body, ch) && Item(n, p, n, 0) !in S[n] {
            S := S[n := S[n] + [Item(n, p, n, 0)]];
          }
        }
        RestoredNext(P(), st, row, S[n], n, x, p);
        p := p + 1;
      }
      RestoredAll(P(), st, S[n], n, x);
    }

    /** Puts back exactly the predictions the lookahead skipped at set `n`, so that an error report can list
        what was expected there. */
    method PredictAllAt(n: nat)
      requires Valid() && n <= |w|
      requires n < |S| ==> RowExact(P(), S[n], n, true)
      modifies `S
      ensures |S| == |old(S)| && forall k: nat :: k != n ==> Row(S, k) == Row(old(S), k)
      ensures n < |S| ==> RowExact(P(), S[n], n, false) && OnlySkipped(P(), old(S[n]), S[n], n)
    {
      hide NullablesExact, Reach, FirstCanMatch, RowExact, OnlySkipped, Restored, GrammarOK;
      if n >= |S| {
        return;
      }
      var ch := if n < |w| then w[n] else 0;
      var snap := S[n];
      ghost var s0, st := S, Now();
      NothingSkipped(P(), snap, n);
      GrammarAnyRows(P(), st);
      var k := 0;
      while k < |snap|
        invariant 0 <= k <= |snap| && |S| == |s0| && OnlySkipped(P(), snap, S[n], n)
        invariant forall i: nat :: i != n ==> Row(S, i) == Row(s0, i)
        invariant AllRestored(P(), S[n], n, snap, k)
      {
        var x := snap[k];
        ghost var row := S[n];
        RowFits(P(), st, snap, n, x);
        if x.prod < |g.prods| {
          if x.dot < |G[x.prod].body| && G[x.prod].body[x.dot].NT? && G[x.prod].body[x.dot].n !in g.classes {
            PutBack(x, n, ch, snap);
          } else {
            NothingToRestore(P(), st, S[n], n, x);
          }
        }
        AllRestoredNext(P(), row, S[n], n, snap, k);
        k := k + 1;
      }
      RestoredIsUnpruned(P(), snap, S[n], n);
    }
  }

  /** S => 'a' null, on "a": the start symbol derives the input, and the recognizer refuses it. */
  method NullRefused(a: int) returns (found: bool)
    requires !IsSentinel(a)
    ensures !found && Derives(Grammar([Prod(0, [T(a), Null])], map[], 0), [a], NT(0), 0, 1)
  {
    hide Derives, Live;
    NullBehindTerminal(a);
    var p := new Parser(Grammar([Prod(0, [T(a), Null])], map[], 0));
    found := p.Parse([a], -1);
  }

  // ---- a 0 at the end

  /** S => 'a' null, or the same one level down: S => X, X => 'a' null. */
  function NullGrammar(a: int, nested: bool): Grammar {
    if nested then Grammar([Prod(0, [NT(1)]), Prod(1, [T(a), Null])], map[], 0)
    else Grammar([Prod(0, [T(a), Null])], map[], 0)
  }

  function NullProd(nested: bool): nat {
    if nested then 1 else 0
  }

  lemma NullDerives(a: int, nested: bool)
    ensures Derives(NullGrammar(a, nested), [a], NT(0), 0, 1)
  {
    var g, body := NullGrammar(a, nested), [T(a), Null];
    var n := NullProd(nested);
    assert PrefixIn(g, [a], 0, body, 0, 0, 0) && LitIn(g, [a], 0, body[0], 0, 1);
    assert StepIn(g, [a], 0, body, 0, 0, 1) && LitIn(g, [a], 0, body[1], 1, 1);
    assert StepIn(g, [a], 0, body, 1, 0, 1) && PrefixIn(g, [a], 0, body, 2, 0, 1);
    assert g.prods[n] == Prod(n, body);
    assert LitIn(g, [a], 1, NT(n), 0, 1);
    if nested {
      var top := [NT(1)];
      assert PrefixIn(g, [a], 1, top, 0, 0, 0) && StepIn(g, [a], 1, top, 0, 0, 1);
      assert g.prods[0] == Prod(0, top) && LitIn(g, [a], 2, NT(0), 0, 1);
    }
  }

  ghost predicate NullItems(nested: bool, x: Item) {
    x == Item(0, 0, 0, 0) || x == Item(0, NullProd(nested), 0, 0) || x == Item(1, NullProd(nested), 0, 1)
  }

  /** Scanning 'a' leaves one item, behind the terminal. */
  lemma NullReached(a: int, nested: bool, x: Item)
    requires Reach(NullGrammar(a, nested), [a], -1, true, x)
    ensures NullItems(nested, x)
  {
    var C := iset y | NullItems(nested, y);
    assert Closed(NullGrammar(a, nested), [a], -1, true, C);
  }

  lemma NullScanned(a: int, nested: bool)
    ensures Reach(NullGrammar(a, nested), [a], -1, true, Item(1, NullProd(nested), 0, 1))
  {
    hide Reach;
    var g := NullGrammar(a, nested);
    ReachInit(g, [a], -1, true, 0);
    if nested {
      ReachPredict(g, [a], -1, true, Item(0, 0, 0, 0), 1);
    }
    ReachScan(g, [a], -1, true, Item(0, NullProd(nested), 0, 0));
  }

  /** When the end reads as 0, the item behind the terminal is advanced inside the last set after all, but no further
      round looks at it: S => 'a' null is accepted on "a", and the same one level down is not. */
  method ZeroAtEnd(a: int, nested: bool) returns (found: bool)
    requires !IsSentinel(a)
    ensures Derives(NullGrammar(a, nested), [a], NT(0), 0, 1)
    ensures found <==> !nested
  {
    hide Derives, Live, Reach, ChartExact, ClassesExact, GrammarOK, NullablesExact;
    NullDerives(a, nested);
    var p := new Parser(NullGrammar(a, nested));
    var _ := p.Parse([a], -1);
    ghost var scanned := Item(1, NullProd(nested), 0, 1);
    NullLeft(p.P(), p.Now(), a, nested);
    p.eof, p.t, p.revisit := 0, [], [];
    p.TakeSnapshot(1, 0);
    var k := 0;
    while k < |p.snapshot|
      invariant 0 <= k <= |p.snapshot| && p.G == p.g.prods && p.g == NullGrammar(a, nested) && |p.S| > 1
      invariant forall x :: x in p.snapshot ==> x == scanned
      invariant forall x :: x in p.S[1] ==> x == scanned || (k > 0 && x == Advance(scanned, 1))
      invariant k > 0 ==> Advance(scanned, 1) in p.S[1]
      invariant p.snapshot != [] && p.t == []
    {
      var x := p.snapshot[k];
      assert x in p.snapshot;
      p.ScanChar(x, 1, 0);
      k := k + 1;
    }
    // production 0 is the start symbol's only one
    found := Item(1, 0, 0, |p.G[0].body|) in p.S[1];
  }

  lemma NullLeft(c: Problem, st: State, a: int, nested: bool)
    requires GrammarOK(c, st) && ChartExact(c, st) && ClassesExact(c, st) && 1 < |st.S|
    requires c.g == NullGrammar(a, nested) && c.w == [a] && c.eof == -1
    ensures st.G == c.g.prods && st.S[1] != [] && forall x :: x in st.S[1] ==> x == Item(1, NullProd(nested), 0, 1)
  {
    hide Reach;
    MoreIsClass(c, st);
    NullScanned(a, nested);
    assert Item(1, NullProd(nested), 0, 1) in Items(st, 1);
    forall x | x in st.S[1] ensures x == Item(1, NullProd(nested), 0, 1) {
      assert x in Items(st, 1);
      NullReached(a, nested, x);
    }
  }
}
