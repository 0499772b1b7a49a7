/** Trees, and the two explicit-stack traversals that rewrite them: each equals a plain recursion. */
module Traversals {
  import opened Options

  /** What a node of a parse tree carries: a literal and the span it covers. */
  datatype Label = Label(nt: bool, id: nat, from: nat, to: nat)

  datatype Tree = Node(head: Label, kids: seq<Tree>)

  function Size(t: Tree): (n: nat)
    ensures n > 0
  {
    1 + SizeAll(t.kids)
  }

  function SizeAll(ts: seq<Tree>): nat {
    if ts == [] then 0 else Size(ts[0]) + SizeAll(ts[1..])
  }

  lemma {:induction false} KidIsSmaller(ts: seq<Tree>, c: Tree)
    requires c in ts
    ensures Size(c) <= SizeAll(ts)
  {
    if c != ts[0] {
      KidIsSmaller(ts[1..], c);
    }
  }

  /** The parameters of a traversal. `f` is applied on the way down and `up` on the way back, `make` rebuilds a node
      whose children changed, and `visit` says which children are entered; None is the error node. With `brk` a
      node that `f` changes is not entered. */
  datatype Walk = Walk(f: Tree -> Option<Tree>, brk: bool, visit: Tree -> bool, up: Tree -> Option<Tree>,
                       make: (Label, seq<Tree>) -> Option<Tree>)

  predicate Descending(w: Walk, c: Tree) {
    w.f(c).Some? && (w.brk ==> w.f(c).value == c)
  }

  /** Every node the walk enters ranks below the node it was entered from. */
  ghost predicate Descends(w: Walk, rank: Tree -> nat) {
    forall n: Tree, c: Tree :: c in n.kids && w.visit(c) && Descending(w, c) ==> rank(w.f(c).value) < rank(n)
  }

  // ---- the recursion

  /** The result for a child: left alone, changed and left, or changed and entered. */
  ghost function Child(w: Walk, rank: Tree -> nat, c: Tree): Option<Tree>
    requires Descends(w, rank)
    decreases if Descending(w, c) then rank(w.f(c).value) + 1 else 0,
              if Descending(w, c) then |w.f(c).value.kids| + 3 else 1
  {
    if w.visit(c) then Enter(w, rank, c) else Some(c)
  }

  ghost function Enter(w: Walk, rank: Tree -> nat, c: Tree): Option<Tree>
    requires Descends(w, rank)
    decreases if Descending(w, c) then rank(w.f(c).value) + 1 else 0,
              if Descending(w, c) then |w.f(c).value.kids| + 2 else 0
  {
    if w.f(c).None? then None
    else if w.brk && w.f(c).value != c then w.f(c)
    else Below(w, rank, w.f(c).value)
  }

  /** The result for a node that has been entered: its children first, then the node on the way up. */
  ghost function Below(w: Walk, rank: Tree -> nat, x: Tree): Option<Tree>
    requires Descends(w, rank)
    decreases rank(x) + 1, |x.kids| + 1
  {
    if x.kids == [] then w.up(x)
    else
      var ks := Kids(w, rank, x, 0);
      if ks.None? then None else Rebuild(w, x, ks.value)
  }

  function Rebuild(w: Walk, x: Tree, ks: seq<Tree>): Option<Tree> {
    if ks == x.kids then w.up(x)
    else
      var m := w.make(x.head, ks);
      if m.None? then None else w.up(m.value)
  }

  ghost function Kids(w: Walk, rank: Tree -> nat, x: Tree, k: nat): (r: Option<seq<Tree>>)
    requires Descends(w, rank) && k <= |x.kids|
    ensures r.Some? ==> |r.value| == |x.kids| - k
    decreases rank(x) + 1, |x.kids| - k
  {
    if k == |x.kids| then Some([])
    else
      var c := x.kids[k];
      assert c in x.kids;
      var r := if !w.visit(c) then Some(c) else Enter(w, rank, c);
      if r.None? then None
      else
        var rest := Kids(w, rank, x, k + 1);
        if rest.None? then None else Some([r.value] + rest.value)
  }

  lemma {:induction false} KidsAre(w: Walk, rank: Tree -> nat, x: Tree, k: nat, rs: seq<Tree>)
    requires Descends(w, rank) && k + |rs| == |x.kids|
    requires forall j :: 0 <= j < |rs| ==> Child(w, rank, x.kids[k + j]) == Some(rs[j])
    ensures Kids(w, rank, x, k) == Some(rs)
    decreases |rs|
  {
    if rs != [] {
      assert Child(w, rank, x.kids[k + 0]) == Some(rs[0]);
      forall j | 0 <= j < |rs[1..]| ensures Child(w, rank, x.kids[k + 1 + j]) == Some(rs[1..][j]) {
        assert Child(w, rank, x.kids[k + (j + 1)]) == Some(rs[j + 1]);
      }
      KidsAre(w, rank, x, k + 1, rs[1..]);
      assert rs == [rs[0]] + rs[1..];
    }
  }

  lemma {:induction false} KidsFail(w: Walk, rank: Tree -> nat, x: Tree, k: nat, j: nat)
    requires Descends(w, rank) && k <= j < |x.kids| && Child(w, rank, x.kids[j]).None?
    ensures Kids(w, rank, x, k).None?
    decreases j - k
  {
    if k < j {
      KidsFail(w, rank, x, k + 1, j);
    }
  }

  // ---- the machine: a stack of nodes, and the positions on it that are still in progress

  /** How many children of frame `k` are finished: those between it and the next frame. */
  function Done(stack: seq<Tree>, upos: seq<nat>, k: nat): int
    requires k < |upos|
  {
    (if k + 1 < |upos| then upos[k + 1] else |stack|) - upos[k] - 1
  }

  ghost predicate FrameOK(w: Walk, rank: Tree -> nat, stack: seq<Tree>, upos: seq<nat>, k: nat)
    requires Descends(w, rank) && k < |upos|
  {
    && upos[k] < |stack| && upos[k] + 1 + Done(stack, upos, k) <= |stack|
    && 0 <= Done(stack, upos, k) <= |stack[upos[k]].kids|
    && (forall j :: 0 <= j < Done(stack, upos, k) ==>
        Child(w, rank, stack[upos[k]].kids[j]) == Some(stack[upos[k] + 1 + j]))
    && (k + 1 < |upos| ==>
          && Done(stack, upos, k) < |stack[upos[k]].kids|
          && var c := stack[upos[k]].kids[Done(stack, upos, k)];
             w.visit(c) && Descending(w, c) && upos[k + 1] < |stack| && w.f(c).value == stack[upos[k + 1]])
  }

  ghost predicate Machine(w: Walk, rank: Tree -> nat, x: Tree, stack: seq<Tree>, upos: seq<nat>)
    requires Descends(w, rank)
  {
    if upos == [] then |stack| == 1 && Below(w, rank, x) == Some(stack[0])
    else
      && upos[0] == 0 && |stack| > 0 && stack[0] == x
      && forall k :: 0 <= k < |upos| ==> FrameOK(w, rank, stack, upos, k)
  }

  ghost predicate CacheOK(w: Walk, rank: Tree -> nat, cache: map<Tree, Tree>)
    requires Descends(w, rank)
  {
    forall x :: x in cache ==> Below(w, rank, x) == Some(cache[x])
  }

  /** A node whose children are being worked on is not in the cache. */
  ghost predicate Open(stack: seq<Tree>, upos: seq<nat>, cache: map<Tree, Tree>) {
    forall k :: 0 <= k < |upos| && upos[k] < |stack| && (k < |upos| - 1 || Done(stack, upos, k) > 0) ==>
        stack[upos[k]] !in cache
  }

  lemma {:induction false} RanksFall(w: Walk, rank: Tree -> nat, x: Tree, stack: seq<Tree>, upos: seq<nat>, i: nat,
          k: nat)
    requires Descends(w, rank) && Machine(w, rank, x, stack, upos) && i < k < |upos|
    ensures upos[i] < |stack| && upos[k] < |stack| && rank(stack[upos[k]]) < rank(stack[upos[i]])
    decreases k
  {
    assert FrameOK(w, rank, stack, upos, k - 1) && FrameOK(w, rank, stack, upos, k);
    var n := stack[upos[k - 1]];
    var c := n.kids[Done(stack, upos, k - 1)];
    assert c in n.kids;
    if i < k - 1 {
      RanksFall(w, rank, x, stack, upos, i, k - 1);
    }
  }

  /** The top frame has a child that is not on the stack yet. */
  predicate HasNext(stack: seq<Tree>, upos: seq<nat>) {
    && upos != [] && upos[|upos| - 1] < |stack|
    && 0 <= |stack| - 1 - upos[|upos| - 1] < |stack[upos[|upos| - 1]].kids|
  }

  function Next(stack: seq<Tree>, upos: seq<nat>): Tree
    requires HasNext(stack, upos)
  {
    stack[upos[|upos| - 1]].kids[|stack| - 1 - upos[|upos| - 1]]
  }

  /** A finished child that is not entered is put on the stack. */
  lemma PushResult(w: Walk, rank: Tree -> nat, x: Tree, stack: seq<Tree>, upos: seq<nat>, v: Tree)
    requires Descends(w, rank) && Machine(w, rank, x, stack, upos) && upos != []
    requires FrameOK(w, rank, stack, upos, |upos| - 1) && HasNext(stack, upos)
    requires Child(w, rank, Next(stack, upos)) == Some(v)
    ensures Machine(w, rank, x, stack + [v], upos)
  {
    var s := stack + [v];
    forall k | 0 <= k < |upos| ensures FrameOK(w, rank, s, upos, k) {
      assert FrameOK(w, rank, stack, upos, k);
    }
  }

  /** A child that is entered becomes a frame of its own. */
  lemma PushFrame(w: Walk, rank: Tree -> nat, x: Tree, stack: seq<Tree>, upos: seq<nat>)
    requires Descends(w, rank) && Machine(w, rank, x, stack, upos) && upos != []
    requires FrameOK(w, rank, stack, upos, |upos| - 1) && HasNext(stack, upos)
    requires w.visit(Next(stack, upos)) && Descending(w, Next(stack, upos))
    ensures Machine(w, rank, x, stack + [w.f(Next(stack, upos)).value], upos + [|stack|])
  {
    var r := w.f(Next(stack, upos)).value;
    var s, u := stack + [r], upos + [|stack|];
    forall k | 0 <= k < |u| ensures FrameOK(w, rank, s, u, k) {
      if k < |upos| {
        assert FrameOK(w, rank, stack, upos, k);
        assert Done(s, u, k) == Done(stack, upos, k);
      }
    }
  }

  /** A finished frame is replaced by its result. */
  lemma PopFrame(w: Walk, rank: Tree -> nat, x: Tree, stack: seq<Tree>, upos: seq<nat>, r: Tree)
    requires Descends(w, rank) && Machine(w, rank, x, stack, upos) && upos != []
    requires upos[|upos| - 1] < |stack| && Below(w, rank, stack[upos[|upos| - 1]]) == Some(r)
    ensures Machine(w, rank, x, stack[..upos[|upos| - 1]] + [r], upos[..|upos| - 1])
  {
    var top := |upos| - 1;
    var s, u := stack[..upos[top]] + [r], upos[..top];
    if top > 0 {
      assert FrameOK(w, rank, stack, upos, top - 1);
      var c := stack[upos[top - 1]].kids[Done(stack, upos, top - 1)];
      assert Child(w, rank, c) == Some(r);
      forall k | 0 <= k < |u| ensures FrameOK(w, rank, s, u, k) {
        assert FrameOK(w, rank, stack, upos, k);
        if k + 1 < top {
          assert FrameOK(w, rank, stack, upos, k + 1);
          Ordered(w, rank, x, stack, upos, k + 1, top);
        }
      }
    }
  }

  lemma {:induction false} Ordered(w: Walk, rank: Tree -> nat, x: Tree, stack: seq<Tree>, upos: seq<nat>, i: nat,
          k: nat)
    requires Descends(w, rank) && Machine(w, rank, x, stack, upos) && i < k < |upos|
    ensures upos[i] < upos[k]
    decreases k
  {
    assert FrameOK(w, rank, stack, upos, k - 1);
    if i < k - 1 {
      Ordered(w, rank, x, stack, upos, i, k - 1);
    }
  }

  /** When the children of the top frame are all finished, they are the children the recursion computes. */
  lemma FrameFinished(w: Walk, rank: Tree -> nat, x: Tree, stack: seq<Tree>, upos: seq<nat>)
    requires Descends(w, rank) && Machine(w, rank, x, stack, upos) && upos != []
    requires var k := |upos| - 1; FrameOK(w, rank, stack, upos, k) && Done(stack, upos, k) == |stack[upos[k]].kids| > 0
    ensures var n := stack[upos[|upos| - 1]];
            Below(w, rank, n) == Rebuild(w, n, stack[upos[|upos| - 1] + 1..])
  {
    var n := stack[upos[|upos| - 1]];
    var rs := stack[upos[|upos| - 1] + 1..];
    KidsAre(w, rank, n, 0, rs);
  }

  /** An error at the top frame is an error of the whole. */
  lemma {:induction false} ErrorSpreads(w: Walk, rank: Tree -> nat, x: Tree, stack: seq<Tree>, upos: seq<nat>, k: nat)
    requires Descends(w, rank) && Machine(w, rank, x, stack, upos) && k < |upos|
    requires upos[k] < |stack| && Below(w, rank, stack[upos[k]]).None?
    ensures Below(w, rank, x).None?
    decreases k
  {
    if k > 0 {
      assert FrameOK(w, rank, stack, upos, k - 1);
      var n := stack[upos[k - 1]];
      KidsFail(w, rank, n, 0, Done(stack, upos, k - 1));
      ErrorSpreads(w, rank, x, stack, upos, k - 1);
    }
  }

  // ---- termination: the work left in all frames

  /** The steps an entered node costs. */
  ghost function Work(w: Walk, rank: Tree -> nat, x: Tree, k: nat): (n: nat)
    requires Descends(w, rank) && k <= |x.kids|
    ensures n > 0
    decreases rank(x), |x.kids| - k
  {
    if k == |x.kids| then 1
    else
      var c := x.kids[k];
      assert c in x.kids;
      1 + (if w.visit(c) && Descending(w, c) then Work(w, rank, w.f(c).value, 0) else 0) + Work(w, rank, x, k + 1)
  }

  ghost function FrameWork(w: Walk, rank: Tree -> nat, stack: seq<Tree>, upos: seq<nat>, k: nat): nat
    requires Descends(w, rank) && k < |upos|
  {
    if upos[k] >= |stack| then 0
    else
      var n := stack[upos[k]];
      var d := Done(stack, upos, k) + if k + 1 < |upos| then 1 else 0;
      if 0 <= d <= |n.kids| then Work(w, rank, n, d) else 0
  }

  ghost function Remaining(w: Walk, rank: Tree -> nat, stack: seq<Tree>, upos: seq<nat>, k: nat): nat
    requires Descends(w, rank) && k <= |upos|
  {
    if k == 0 then 0 else Remaining(w, rank, stack, upos, k - 1) + FrameWork(w, rank, stack, upos, k - 1)
  }

  lemma {:induction false} RemainingFrame(w: Walk, rank: Tree -> nat, s: seq<Tree>, u: seq<nat>, s': seq<Tree>,
          u': seq<nat>, k: nat)
    requires Descends(w, rank) && k <= |u| && k <= |u'|
    requires forall i :: 0 <= i < k ==> FrameWork(w, rank, s, u, i) == FrameWork(w, rank, s', u', i)
    ensures Remaining(w, rank, s, u, k) == Remaining(w, rank, s', u', k)
  {
    if k > 0 {
      RemainingFrame(w, rank, s, u, s', u', k - 1);
    }
  }

  lemma PushResultWork(w: Walk, rank: Tree -> nat, x: Tree, stack: seq<Tree>, upos: seq<nat>, v: Tree)
    requires Descends(w, rank) && Machine(w, rank, x, stack, upos) && HasNext(stack, upos)
    ensures Remaining(w, rank, stack + [v], upos, |upos|) < Remaining(w, rank, stack, upos, |upos|)
  {
    hide Child, Kids, Below, Enter;
    var top := |upos| - 1;
    forall i | 0 <= i < top ensures FrameWork(w, rank, stack, upos, i) == FrameWork(w, rank, stack + [v], upos, i) {
      assert FrameOK(w, rank, stack, upos, i);
    }
    RemainingFrame(w, rank, stack, upos, stack + [v], upos, top);
    assert FrameOK(w, rank, stack, upos, top);
  }

  lemma PushFrameWork(w: Walk, rank: Tree -> nat, x: Tree, stack: seq<Tree>, upos: seq<nat>)
    requires Descends(w, rank) && Machine(w, rank, x, stack, upos) && HasNext(stack, upos)
    requires w.visit(Next(stack, upos)) && Descending(w, Next(stack, upos))
    ensures var s, u := stack + [w.f(Next(stack, upos)).value], upos + [|stack|];
            Remaining(w, rank, s, u, |u|) < Remaining(w, rank, stack, upos, |upos|)
  {
    hide Child, Kids, Below, Enter;
    var s, u := stack + [w.f(Next(stack, upos)).value], upos + [|stack|];
    var top := |upos| - 1;
    forall i | 0 <= i < top ensures FrameWork(w, rank, stack, upos, i) == FrameWork(w, rank, s, u, i) {
      assert FrameOK(w, rank, stack, upos, i);
    }
    RemainingFrame(w, rank, stack, upos, s, u, top);
    assert FrameOK(w, rank, stack, upos, top);
    assert Done(s, u, top) == Done(stack, upos, top) && Done(s, u, top + 1) == 0;
    assert Remaining(w, rank, s, u, |u|)
        == Remaining(w, rank, s, u, top) + FrameWork(w, rank, s, u, top) + FrameWork(w, rank, s, u, top + 1);
  }

  lemma PopFrameWork(w: Walk, rank: Tree -> nat, x: Tree, stack: seq<Tree>, upos: seq<nat>, r: Tree)
    requires Descends(w, rank) && Machine(w, rank, x, stack, upos) && upos != [] && upos[|upos| - 1] < |stack|
    ensures var s, u := stack[..upos[|upos| - 1]] + [r], upos[..|upos| - 1];
            Remaining(w, rank, s, u, |u|) < Remaining(w, rank, stack, upos, |upos|)
  {
    var top := |upos| - 1;
    var s, u := stack[..upos[top]] + [r], upos[..top];
    forall i | 0 <= i < top ensures FrameWork(w, rank, stack, upos, i) == FrameWork(w, rank, s, u, i) {
      assert FrameOK(w, rank, stack, upos, i);
      Ordered(w, rank, x, stack, upos, i, top);
    }
    RemainingFrame(w, rank, stack, upos, s, u, top);
    assert FrameOK(w, rank, stack, upos, top);
  }

  // ---- the cache

  /** Storing a finished node leaves every node in progress out of the cache. */
  lemma StaysOpen(w: Walk, rank: Tree -> nat, x: Tree, stack: seq<Tree>, upos: seq<nat>, cache: map<Tree, Tree>,
          r: Tree)
    requires Descends(w, rank) && Machine(w, rank, x, stack, upos) && upos != [] && upos[|upos| - 1] < |stack|
    requires Open(stack, upos, cache)
    ensures Open(stack[..upos[|upos| - 1]] + [r], upos[..|upos| - 1], cache)
    ensures Open(stack[..upos[|upos| - 1]] + [r], upos[..|upos| - 1], cache[stack[upos[|upos| - 1]] := r])
  {
    var top := |upos| - 1;
    var s, u := stack[..upos[top]] + [r], upos[..top];
    forall k | 0 <= k < |u|
      ensures u[k] < |s| && s[u[k]] == stack[upos[k]] && s[u[k]] !in cache && s[u[k]] != stack[upos[top]]
    {
      assert FrameOK(w, rank, stack, upos, k);
      Ordered(w, rank, x, stack, upos, k, top);
      RanksFall(w, rank, x, stack, upos, k, top);
    }
  }

  lemma StillOpen(w: Walk, rank: Tree -> nat, x: Tree, stack: seq<Tree>, upos: seq<nat>, cache: map<Tree, Tree>,
          v: Tree)
    requires Descends(w, rank) && Machine(w, rank, x, stack, upos) && upos != [] && upos[|upos| - 1] < |stack|
    requires Open(stack, upos, cache) && stack[upos[|upos| - 1]] !in cache
    ensures Open(stack + [v], upos, cache) && Open(stack + [v], upos + [|stack|], cache)
  {
    forall k | 0 <= k < |upos| ensures upos[k] < |stack| && stack[upos[k]] !in cache {
      assert FrameOK(w, rank, stack, upos, k);
      if k < |upos| - 1 {
        Ordered(w, rank, x, stack, upos, k, |upos| - 1);
      }
    }
  }

  /** The whole state of a traversal that has entered its root, now node `x`. */
  ghost predicate Running(w: Walk, rank: Tree -> nat, x: Tree, stack: seq<Tree>, upos: seq<nat>, cache: map<Tree, Tree>)
    requires Descends(w, rank)
  {
    Machine(w, rank, x, stack, upos) && CacheOK(w, rank, cache) && Open(stack, upos, cache)
  }

  lemma Starts(w: Walk, rank: Tree -> nat, x: Tree)
    requires Descends(w, rank)
    ensures Running(w, rank, x, [x], [0], map[])
  {
    assert FrameOK(w, rank, [x], [0], 0);
  }

  /** What the traversal may rely on at the frame it is about to work on. */
  lemma AtTop(w: Walk, rank: Tree -> nat, x: Tree, stack: seq<Tree>, upos: seq<nat>, cache: map<Tree, Tree>)
    requires Descends(w, rank) && Running(w, rank, x, stack, upos, cache) && upos != []
    ensures var at := upos[|upos| - 1];
            && at < |stack| && |stack| - 1 - at <= |stack[at].kids|
            && (stack[at] in cache ==> at == |stack| - 1 && Below(w, rank, stack[at]) == Some(cache[stack[at]]))
            && (stack[at].kids == [] ==> at == |stack| - 1 && Below(w, rank, stack[at]) == w.up(stack[at]))
            && (stack[at].kids != [] && |stack| - 1 - at == |stack[at].kids| ==>
                Below(w, rank, stack[at]) == Rebuild(w, stack[at], stack[at + 1..]))
  {
    assert FrameOK(w, rank, stack, upos, |upos| - 1);
    var at := upos[|upos| - 1];
    if stack[at].kids != [] && |stack| - 1 - at == |stack[at].kids| {
      FrameFinished(w, rank, x, stack, upos);
    }
  }

  /** Finishing the top frame with its result, stored or not. */
  lemma Finish(w: Walk, rank: Tree -> nat, x: Tree, stack: seq<Tree>, upos: seq<nat>, cache: map<Tree, Tree>, r: Tree)
    requires Descends(w, rank) && Running(w, rank, x, stack, upos, cache) && upos != []
    requires upos[|upos| - 1] < |stack| && Below(w, rank, stack[upos[|upos| - 1]]) == Some(r)
    ensures var s, u := stack[..upos[|upos| - 1]] + [r], upos[..|upos| - 1];
            && Running(w, rank, x, s, u, cache)
            && Running(w, rank, x, s, u, cache[stack[upos[|upos| - 1]] := r])
            && Remaining(w, rank, s, u, |u|) < Remaining(w, rank, stack, upos, |upos|)
  {
    hide Machine, Open, Remaining;
    PopFrame(w, rank, x, stack, upos, r);
    StaysOpen(w, rank, x, stack, upos, cache, r);
    PopFrameWork(w, rank, x, stack, upos, r);
  }

  /** Taking the next child of the top frame. */
  lemma Advance(w: Walk, rank: Tree -> nat, x: Tree, stack: seq<Tree>, upos: seq<nat>, cache: map<Tree, Tree>)
    requires Descends(w, rank) && Running(w, rank, x, stack, upos, cache) && HasNext(stack, upos)
    requires stack[upos[|upos| - 1]] !in cache
    ensures var c := Next(stack, upos);
            if w.visit(c) && Descending(w, c) then
              var s, u := stack + [w.f(c).value], upos + [|stack|];
              Running(w, rank, x, s, u, cache)
                  && Remaining(w, rank, s, u, |u|) < Remaining(w, rank, stack, upos, |upos|)
            else if Child(w, rank, c).Some? then
              var s := stack + [Child(w, rank, c).value];
              Running(w, rank, x, s, upos, cache)
                  && Remaining(w, rank, s, upos, |upos|) < Remaining(w, rank, stack, upos, |upos|)
            else Below(w, rank, x).None?
  {
    hide Open, Remaining;
    assert FrameOK(w, rank, stack, upos, |upos| - 1);
    hide Machine;
    var c := Next(stack, upos);
    if w.visit(c) && Descending(w, c) {
      StillOpen(w, rank, x, stack, upos, cache, w.f(c).value);
      PushFrame(w, rank, x, stack, upos);
      PushFrameWork(w, rank, x, stack, upos);
    } else if Child(w, rank, c).Some? {
      StillOpen(w, rank, x, stack, upos, cache, Child(w, rank, c).value);
      PushResult(w, rank, x, stack, upos, Child(w, rank, c).value);
      PushResultWork(w, rank, x, stack, upos, Child(w, rank, c).value);
    } else {
      KidsFail(w, rank, stack[upos[|upos| - 1]], 0, Done(stack, upos, |upos| - 1));
      ErrorSpreads(w, rank, x, stack, upos, |upos| - 1);
    }
  }

  lemma Fails(w: Walk, rank: Tree -> nat, x: Tree, stack: seq<Tree>, upos: seq<nat>, cache: map<Tree, Tree>)
    requires Descends(w, rank) && Running(w, rank, x, stack, upos, cache) && upos != []
    requires upos[|upos| - 1] < |stack| && Below(w, rank, stack[upos[|upos| - 1]]).None?
    ensures Below(w, rank, x).None?
  {
    ErrorSpreads(w, rank, x, stack, upos, |upos| - 1);
  }

  lemma Finished(w: Walk, rank: Tree -> nat, x: Tree, stack: seq<Tree>, cache: map<Tree, Tree>)
    requires Descends(w, rank) && Running(w, rank, x, stack, [], cache)
    ensures |stack| == 1 && Below(w, rank, x) == Some(stack[0])
  {
  }

  /** The pre-order traversal, in both forms: with `brk` a changed node is not entered, with `unique` results are
      remembered. It terminates and returns what the recursion returns, errors included. */
  method PreOrder(w: Walk, unique: bool, n: Tree, ghost rank: Tree -> nat) returns (res: Option<Tree>)
    requires Descends(w, rank)
    ensures res == Enter(w, rank, n)
  {
    hide Running, Below, Remaining, Child, Rebuild;
    var cache: map<Tree, Tree> := map[];
    var stack: seq<Tree>, upos: seq<nat> := [], [];
    var r := w.f(n);
    if r.None? {
      return None;
    }
    if !w.brk || r.value == n {
      upos := upos + [0];
    } else {
      return r;
    }
    stack := stack + [r.value];
    ghost var x := r.value;
    Starts(w, rank, x);
    assert stack == [x] && upos == [0];
    while upos != []
      invariant Running(w, rank, x, stack, upos, cache) && (!unique ==> cache == map[])
      decreases Remaining(w, rank, stack, upos, |upos|)
    {
      AtTop(w, rank, x, stack, upos, cache);
      var at := upos[|upos| - 1];
      var node := stack[at];
      var pos := |stack| - 1 - at;
      if unique && node in cache {
        Finish(w, rank, x, stack, upos, cache, cache[node]);
        stack := stack[..at] + [cache[node]];
        upos := upos[..|upos| - 1];
        continue;
      }
      if node.kids == [] {
        var v := w.up(node);
        if v.None? {
          Fails(w, rank, x, stack, upos, cache);
          return None;
        }
        Finish(w, rank, x, stack, upos, cache, v.value);
        stack := stack[..at] + [v.value];
        upos := upos[..|upos| - 1];
        continue;
      }
      if pos == |node.kids| {
        var v := FinishNode(w, node, stack[at + 1..]);
        if v.None? {
          Fails(w, rank, x, stack, upos, cache);
          return None;
        }
        Finish(w, rank, x, stack, upos, cache, v.value);
        if unique {
          cache := cache[node := v.value];
        }
        stack := stack[..at] + [v.value];
        upos := upos[..|upos| - 1];
      } else {
        Advance(w, rank, x, stack, upos, cache);
        var c := node.kids[pos];
        assert Next(stack, upos) == c;
        ChildIs(w, rank, c);
        if w.visit(c) {
          r := w.f(c);
          if r.None? {
            return None;
          }
          if !w.brk || r.value == c {
            upos := upos + [|stack|];
          }
          stack := stack + [r.value];
        } else {
          stack := stack + [c];
        }
      }
    }
    Finished(w, rank, x, stack, cache);
    return Some(stack[0]);
  }

  lemma ChildIs(w: Walk, rank: Tree -> nat, c: Tree)
    requires Descends(w, rank)
    ensures !w.visit(c) ==> Child(w, rank, c) == Some(c)
    ensures w.visit(c) && !Descending(w, c) ==> Child(w, rank, c) == w.f(c)
  {
  }

  /** The node is rebuilt only when a child changed, and then handed to `up`. */
  method FinishNode(w: Walk, node: Tree, kids: seq<Tree>) returns (v: Option<Tree>)
    ensures v == Rebuild(w, node, kids)
  {
    if kids == node.kids {
      return w.up(node);
    }
    var m := w.make(node.head, kids);
    if m.None? {
      return None;
    }
    return w.up(m.value);
  }

  // ---- post-order: the walk that does nothing on the way down

  function Keep(t: Tree): Option<Tree> {
    Some(t)
  }

  function Build(head: Label, kids: seq<Tree>): Option<Tree> {
    Some(Node(head, kids))
  }

  function All(t: Tree): bool {
    true
  }

  function PostWalk(f: Tree -> Option<Tree>, visit: Tree -> bool, make: (Label, seq<Tree>) -> Option<Tree>): Walk {
    Walk(Keep, false, visit, f, make)
  }

  lemma SizeRanks(w: Walk)
    requires w.brk || forall t :: w.f(t) == Some(t)
    ensures Descends(w, Size)
  {
    forall n: Tree, c: Tree | c in n.kids && w.visit(c) && Descending(w, c) ensures Size(w.f(c).value) < Size(n) {
      KidIsSmaller(n.kids, c);
      assert w.f(c).value == c;
    }
  }

  /** The bottom-up map: `f` of the node rebuilt from its mapped children. */
  function Post(f: Tree -> Option<Tree>, visit: Tree -> bool, make: (Label, seq<Tree>) -> Option<Tree>,
          n: Tree): Option<Tree>
    decreases n, 0
  {
    var ks := PostAll(f, visit, make, n.kids);
    if ks.None? then None
    else if ks.value == n.kids then f(n)
    else
      var m := make(n.head, ks.value);
      if m.None? then None else f(m.value)
  }

  function PostAll(f: Tree -> Option<Tree>, visit: Tree -> bool, make: (Label, seq<Tree>) -> Option<Tree>,
          ts: seq<Tree>): Option<seq<Tree>>
    decreases ts, 1
  {
    if ts == [] then Some([])
    else
      var r := if visit(ts[0]) then Post(f, visit, make, ts[0]) else Some(ts[0]);
      var rest := PostAll(f, visit, make, ts[1..]);
      if r.None? || rest.None? then None else Some([r.value] + rest.value)
  }

  lemma {:induction false} PostIsBelow(f: Tree -> Option<Tree>, visit: Tree -> bool,
          make: (Label, seq<Tree>) -> Option<Tree>, n: Tree)
    requires Descends(PostWalk(f, visit, make), Size)
    ensures Below(PostWalk(f, visit, make), Size, n) == Post(f, visit, make, n)
    decreases Size(n), |n.kids| + 1
  {
    PostIsKids(f, visit, make, n, 0);
    assert n.kids[0..] == n.kids;
  }

  lemma {:induction false} PostIsKids(f: Tree -> Option<Tree>, visit: Tree -> bool,
          make: (Label, seq<Tree>) -> Option<Tree>, n: Tree, k: nat)
    requires Descends(PostWalk(f, visit, make), Size) && k <= |n.kids|
    ensures Kids(PostWalk(f, visit, make), Size, n, k) == PostAll(f, visit, make, n.kids[k..])
    decreases Size(n), |n.kids| - k
  {
    if k < |n.kids| {
      KidIsSmaller(n.kids, n.kids[k]);
      PostIsBelow(f, visit, make, n.kids[k]);
      PostIsKids(f, visit, make, n, k + 1);
      assert n.kids[k..][1..] == n.kids[k + 1..];
    }
  }

  /** The post-order traversal equals the bottom-up recursion; a node in progress is never found in the cache. */
  method PostOrder(f: Tree -> Option<Tree>, visit: Tree -> bool, make: (Label, seq<Tree>) -> Option<Tree>, n: Tree)
    returns (res: Option<Tree>)
    ensures res == Post(f, visit, make, n)
  {
    hide Running, Below, Remaining, Child, Rebuild, Kids, Enter, Post, PostAll, Descends, Size;
    ghost var w, rank := PostWalk(f, visit, make), Size;
    SizeRanks(w);
    PostIsBelow(f, visit, make, n);
    var cache: map<Tree, Tree> := map[];
    var stack: seq<Tree>, upos: seq<nat> := [n], [0];
    Starts(w, rank, n);
    while upos != []
      invariant Running(w, rank, n, stack, upos, cache)
      decreases Remaining(w, rank, stack, upos, |upos|)
    {
      AtTop(w, rank, n, stack, upos, cache);
      var at := upos[|upos| - 1];
      var node := stack[at];
      var pos := |stack| - 1 - at;
      if node in cache {
        assert pos == 0;
        Finish(w, rank, n, stack, upos, cache, cache[node]);
        stack := stack[..at] + [cache[node]];
        upos := upos[..|upos| - 1];
        continue;
      }
      if node.kids == [] {
        var v := f(node);
        if v.None? {
          Fails(w, rank, n, stack, upos, cache);
          return None;
        }
        Finish(w, rank, n, stack, upos, cache, v.value);
        stack := stack[..at] + [v.value];
        upos := upos[..|upos| - 1];
        continue;
      }
      if pos == |node.kids| {
        var v := FinishNode(PostWalk(f, visit, make), node, stack[at + 1..]);
        if v.None? {
          Fails(w, rank, n, stack, upos, cache);
          return None;
        }
        Finish(w, rank, n, stack, upos, cache, v.value);
        cache := cache[node := v.value];
        stack := stack[..at] + [v.value];
        upos := upos[..|upos| - 1];
      } else {
        Advance(w, rank, n, stack, upos, cache);
        var c := node.kids[pos];
        assert Next(stack, upos) == c;
        ChildIs(w, rank, c);
        stack := stack + [c];
        if visit(c) {
          upos := upos + [|stack| - 1];
        }
      }
    }
    Finished(w, rank, n, stack, cache);
    return Some(stack[0]);
  }

  // ---- what a walk does to every node: labels changed on the way down and again on the way up

  function At(t: Tree, path: seq<nat>): Option<Tree> {
    if path == [] then Some(t)
    else if path[0] < |t.kids| then At(t.kids[path[0]], path[1..]) else None
  }

  /** Applies `g` to the label of a node; None is the error node. */
  function Relabel(g: Label -> Option<Label>): Tree -> Option<Tree> {
    (t: Tree) => if g(t.head).None? then None else Some(Node(g(t.head).value, t.kids))
  }

  function RelabelWalk(g: Label -> Option<Label>, h: Label -> Option<Label>, visit: Tree -> bool): Walk {
    Walk(Relabel(g), false, visit, Relabel(h), Build)
  }

  /** The path leads through nodes that are entered. */
  ghost predicate Entered(visit: Tree -> bool, t: Tree, path: seq<nat>) {
    path != [] ==>
      path[0] < |t.kids| && visit(t.kids[path[0]]) && Entered(visit, t.kids[path[0]], path[1..])
  }

  predicate Refused(g: Label -> Option<Label>, h: Label -> Option<Label>, l: Label) {
    g(l).None? || h(g(l).value).None?
  }

  /** Some node that is entered gets an error. */
  predicate Spoiled(g: Label -> Option<Label>, h: Label -> Option<Label>, visit: Tree -> bool, t: Tree) {
    Refused(g, h, t.head) || exists k :: 0 <= k < |t.kids| && visit(t.kids[k]) && Spoiled(g, h, visit, t.kids[k])
  }

  lemma RelabelDescends(g: Label -> Option<Label>, h: Label -> Option<Label>, visit: Tree -> bool)
    ensures Descends(RelabelWalk(g, h, visit), Size)
  {
    var w := RelabelWalk(g, h, visit);
    forall n: Tree, c: Tree | c in n.kids && w.visit(c) && Descending(w, c) ensures Size(w.f(c).value) < Size(n) {
      KidIsSmaller(n.kids, c);
    }
  }

  /** One node of such a walk. */
  ghost predicate Mapped(w: Walk, g: Label -> Option<Label>, h: Label -> Option<Label>, t: Tree, r: Tree)
    requires Descends(w, Size)
  {
    && !Refused(g, h, t.head) && r.head == h(g(t.head).value).value && |r.kids| == |t.kids|
    && forall k :: 0 <= k < |t.kids| ==> Child(w, Size, t.kids[k]) == Some(r.kids[k])
  }

  lemma {:induction false} EnterRelabels(g: Label -> Option<Label>, h: Label -> Option<Label>, visit: Tree -> bool,
          t: Tree)
    requires Descends(RelabelWalk(g, h, visit), Size)
    ensures var w := RelabelWalk(g, h, visit);
            var r := Enter(w, Size, t);
            if Spoiled(g, h, visit, t) then r.None? else r.Some? && Mapped(w, g, h, t, r.value)
    decreases t
  {
    var w := RelabelWalk(g, h, visit);
    forall k | 0 <= k < |t.kids|
      ensures Child(w, Size, t.kids[k]).None? <==> visit(t.kids[k]) && Spoiled(g, h, visit, t.kids[k])
    {
      EnterRelabels(g, h, visit, t.kids[k]);
    }
    if g(t.head).Some? {
      var x := Node(g(t.head).value, t.kids);
      if k :| 0 <= k < |t.kids| && visit(t.kids[k]) && Spoiled(g, h, visit, t.kids[k]) {
        KidsFail(w, Size, x, 0, k);
      } else {
        var rs := seq(|t.kids|, k requires 0 <= k < |t.kids| => Child(w, Size, t.kids[k]).value);
        KidsAre(w, Size, x, 0, rs);
      }
    }
  }

  /** Every node that is entered has both functions applied to its label, once and in this order, and keeps its place
      and the number of its children; a child that is not entered stays as it is; and the whole is an error exactly when
      one of the functions is, at some node that is entered. */
  lemma {:induction false} WalkRelabels(g: Label -> Option<Label>, h: Label -> Option<Label>, visit: Tree -> bool,
          t: Tree, path: seq<nat>)
    requires Descends(RelabelWalk(g, h, visit), Size) && Entered(visit, t, path)
    ensures var r := Enter(RelabelWalk(g, h, visit), Size, t);
            && At(t, path).Some?
            && (Refused(g, h, At(t, path).value.head) ==> r.None?)
            && (r.Some? ==>
                  && At(r.value, path).Some?
                  && var was, now := At(t, path).value, At(r.value, path).value;
                     && now.head == h(g(was.head).value).value && |now.kids| == |was.kids|
                     && forall k :: 0 <= k < |was.kids| && !visit(was.kids[k]) ==> now.kids[k] == was.kids[k])
    decreases |path|
  {
    EnterRelabels(g, h, visit, t);
    if path != [] {
      WalkRelabels(g, h, visit, t.kids[path[0]], path[1..]);
      EnterRelabels(g, h, visit, t.kids[path[0]]);
    }
  }

  lemma {:induction false} ErrorFound(g: Label -> Option<Label>, h: Label -> Option<Label>, visit: Tree -> bool,
          t: Tree)
    returns (path: seq<nat>)
    requires Descends(RelabelWalk(g, h, visit), Size) && Enter(RelabelWalk(g, h, visit), Size, t).None?
    ensures Entered(visit, t, path) && At(t, path).Some? && Refused(g, h, At(t, path).value.head)
    decreases t
  {
    EnterRelabels(g, h, visit, t);
    path := [];
    if !Refused(g, h, t.head) {
      var k :| 0 <= k < |t.kids| && visit(t.kids[k]) && Spoiled(g, h, visit, t.kids[k]);
      EnterRelabels(g, h, visit, t.kids[k]);
      var rest := ErrorFound(g, h, visit, t.kids[k]);
      path := [k] + rest;
      assert path[1..] == rest;
    }
  }
}
