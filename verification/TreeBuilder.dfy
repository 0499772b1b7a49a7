/** Building the parse tree from chosen children: one frame per node under construction, no recursion. */
module TreeBuilder {
  import opened Options
  import opened Grammars
  import opened ChildTilings
  import opened ChartPlans
  import opened Disambiguation

  /** A tree node, or a node of alternatives over a span. */
  datatype Tree = Node(at: PNode, kids: seq<Tree>) | Amb(from: nat, to: nat, alts: seq<Tree>)

  /** The nodes a build can meet: a finite set closed under taking children. */
  ghost predicate Covers(b: Plan, all: set<PNode>) {
    forall n, k, m :: n in all && 0 <= k < |b.packs(n)| && 0 <= m < |b.packs(n)[k]| && b.packs(n)[k][m].lit.NT? ==>
      b.packs(n)[k][m] in all
  }

  ghost predicate PackIn(all: set<PNode>, pack: Pack) {
    forall m :: 0 <= m < |pack| && pack[m].lit.NT? ==> pack[m] in all
  }

  ghost predicate PacksIn(all: set<PNode>, ps: seq<Pack>) {
    forall k :: 0 <= k < |ps| ==> PackIn(all, ps[k])
  }

  lemma OneLess(all: set<PNode>, vis: set<PNode>, n: PNode)
    requires n in all && n !in vis
    ensures |all - (vis + {n})| < |all - vis|
  {
    Fewer(all - (vis + {n}), all - vis, n);
  }

  function Leaf(n: PNode): Tree {
    Node(n, [])
  }

  /** A node that gets no frame: a leaf literal, one already under construction, or one without packs. */
  ghost predicate Bare(b: Plan, vis: set<PNode>, n: PNode) {
    !n.lit.NT? || n in vis || b.packs(n) == []
  }

  // ---- the recursion

  /** The trees a node gives its parent, while the nodes in `vis` are under construction. */
  ghost function Build(b: Plan, all: set<PNode>, vis: set<PNode>, n: PNode): seq<Tree>
    requires Covers(b, all) && (n.lit.NT? ==> n in all)
    decreases |all - vis|, 0, 0
  {
    if Bare(b, vis, n) then (if n.lit.NT? && b.ebnf(n) then [] else [Leaf(n)])
    else
      var ps := b.packs(n);
      OneLess(all, vis, n);
      assert PacksIn(all, ps);
      if |ps| > 1 then [Amb(n.from, n.to, BuildEach(b, all, vis + {n}, n, ps))]
      else if b.ebnf(n) then BuildAll(b, all, vis + {n}, ps[0])
      else [Node(n, BuildAll(b, all, vis + {n}, ps[0]))]
  }

  ghost function BuildAll(b: Plan, all: set<PNode>, vis: set<PNode>, pack: Pack): seq<Tree>
    requires Covers(b, all) && PackIn(all, pack)
    decreases |all - vis|, 1, |pack|
  {
    if pack == [] then [] else Build(b, all, vis, pack[0]) + BuildAll(b, all, vis, pack[1..])
  }

  ghost function BuildEach(b: Plan, all: set<PNode>, vis: set<PNode>, n: PNode, ps: seq<Pack>): seq<Tree>
    requires Covers(b, all) && PacksIn(all, ps)
    decreases |all - vis|, 2, |ps|
  {
    if ps == [] then []
    else
      assert PackIn(all, ps[0]);
      [Node(n, BuildAll(b, all, vis, ps[0]))] + BuildEach(b, all, vis, n, ps[1..])
  }

  // ---- the shape of what is built, told of the tree alone

  /** An element of a pack that gets a tree of its own, and what is under construction there. */
  datatype Part = Part(node: PNode, vis: set<PNode>)

  ghost predicate Helper(b: Plan, n: PNode) {
    n.lit.NT? && b.ebnf(n)
  }

  /** The elements of a pack in order, each helper with one pack replaced by the elements of that pack, and a helper
      without packs, or met again inside itself, by nothing. */
  ghost function Parts(b: Plan, all: set<PNode>, vis: set<PNode>, pack: Pack): (ps: seq<Part>)
    requires Covers(b, all) && PackIn(all, pack)
    ensures forall i :: 0 <= i < |ps| ==> ps[i].node.lit.NT? ==> ps[i].node in all
    ensures forall i :: 0 <= i < |ps| && Helper(b, ps[i].node) ==>
              ps[i].node !in ps[i].vis && |b.packs(ps[i].node)| > 1
    decreases |all - vis|, |pack|
  {
    if pack == [] then []
    else
      var e, later := pack[0], Parts(b, all, vis, pack[1..]);
      if !Helper(b, e) then [Part(e, vis)] + later
      else if e in vis || b.packs(e) == [] then later
      else if |b.packs(e)| > 1 then [Part(e, vis)] + later
      else
        OneLess(all, vis, e);
        assert PacksIn(all, b.packs(e));
        assert PackIn(all, b.packs(e)[0]);
        Parts(b, all, vis + {e}, b.packs(e)[0]) + later
  }

  /** A leaf where nothing goes on; otherwise a node over its pack's parts, or one such node for each pack, in order,
      below a node of alternatives. */
  ghost predicate Shows(b: Plan, all: set<PNode>, vis: set<PNode>, n: PNode, t: Tree)
    requires Covers(b, all) && (n.lit.NT? ==> n in all)
    decreases t, 0
  {
    if !n.lit.NT? || n in vis || b.packs(n) == [] then t == Node(n, [])
    else
      assert PacksIn(all, b.packs(n));
      if |b.packs(n)| == 1 then
        assert PackIn(all, b.packs(n)[0]);
        t.Node? && t.at == n && PartsShow(b, all, Parts(b, all, vis + {n}, b.packs(n)[0]), t.kids)
      else
        && t.Amb? && t.from == n.from && t.to == n.to && |t.alts| == |b.packs(n)|
        && forall k :: 0 <= k < |t.alts| ==>
             t.alts[k].Node? && t.alts[k].at == n && PackIn(all, b.packs(n)[k])
             && PartsShow(b, all, Parts(b, all, vis + {n}, b.packs(n)[k]), t.alts[k].kids)
  }

  ghost predicate PartsShow(b: Plan, all: set<PNode>, ps: seq<Part>, ts: seq<Tree>)
    requires Covers(b, all) && forall i :: 0 <= i < |ps| ==> ps[i].node.lit.NT? ==> ps[i].node in all
    decreases ts, 1
  {
    |ps| == |ts| && forall i :: 0 <= i < |ps| ==> Shows(b, all, ps[i].vis, ps[i].node, ts[i])
  }

  /** No helper is left as a node, except as the alternatives over its own span. */
  predicate NoHelpers(ebnf: PNode -> bool, t: Tree)
    decreases t
  {
    match t
    case Node(at, kids) =>
      !(at.lit.NT? && ebnf(at)) && forall k :: 0 <= k < |kids| ==> NoHelpers(ebnf, kids[k])
    case Amb(from, to, alts) =>
      forall k :: 0 <= k < |alts| ==>
        alts[k].Node? && alts[k].at.from == from && alts[k].at.to == to
        && forall j :: 0 <= j < |alts[k].kids| ==> NoHelpers(ebnf, alts[k].kids[j])
  }

  /** A helper that leaves no node. */
  ghost predicate Vanishes(b: Plan, vis: set<PNode>, n: PNode) {
    Helper(b, n) && (n in vis || |b.packs(n)| <= 1)
  }

  lemma {:induction false} BuildShows(b: Plan, all: set<PNode>, vis: set<PNode>, n: PNode)
    requires Covers(b, all) && (n.lit.NT? ==> n in all) && !Vanishes(b, vis, n)
    ensures |Build(b, all, vis, n)| == 1 && Shows(b, all, vis, n, Build(b, all, vis, n)[0])
    decreases |all - vis|, 0, 0
  {
    hide Covers, PartsShow, Parts, BuildAll;
    if !Bare(b, vis, n) {
      var ps := b.packs(n);
      CoveredPacks(b, all, n);
      OneLess(all, vis, n);
      if |ps| > 1 {
        EachShows(b, all, vis + {n}, n, ps);
      } else {
        assert PackIn(all, ps[0]);
        AllShow(b, all, vis + {n}, ps[0]);
      }
    }
  }

  lemma CoveredPacks(b: Plan, all: set<PNode>, n: PNode)
    requires Covers(b, all) && n in all
    ensures PacksIn(all, b.packs(n))
  {
  }

  lemma PartsShowMore(b: Plan, all: set<PNode>, ps: seq<Part>, ts: seq<Tree>, qs: seq<Part>, us: seq<Tree>)
    requires Covers(b, all) && (forall i :: 0 <= i < |ps| ==> ps[i].node.lit.NT? ==> ps[i].node in all)
    requires forall i :: 0 <= i < |qs| ==> qs[i].node.lit.NT? ==> qs[i].node in all
    requires PartsShow(b, all, ps, ts) && PartsShow(b, all, qs, us)
    ensures forall i :: 0 <= i < |ps + qs| ==> (ps + qs)[i].node.lit.NT? ==> (ps + qs)[i].node in all
    ensures PartsShow(b, all, ps + qs, ts + us)
  {
    hide Covers, Shows;
  }

  lemma {:induction false} AllShow(b: Plan, all: set<PNode>, vis: set<PNode>, pack: Pack)
    requires Covers(b, all) && PackIn(all, pack)
    ensures PartsShow(b, all, Parts(b, all, vis, pack), BuildAll(b, all, vis, pack))
    decreases |all - vis|, 1, |pack|
  {
    hide Covers, Shows;
    if pack != [] {
      var e := pack[0];
      AllShow(b, all, vis, pack[1..]);
      var later, rest := Parts(b, all, vis, pack[1..]), BuildAll(b, all, vis, pack[1..]);
      if !Vanishes(b, vis, e) {
        BuildShows(b, all, vis, e);
        var one := Build(b, all, vis, e);
        assert PartsShow(b, all, [Part(e, vis)], one);
        PartsShowMore(b, all, [Part(e, vis)], one, later, rest);
      } else if e in vis || b.packs(e) == [] {
        assert [] + rest == rest;
      } else {
        CoveredPacks(b, all, e);
        OneLess(all, vis, e);
        var pack' := b.packs(e)[0];
        assert PackIn(all, pack');
        AllShow(b, all, vis + {e}, pack');
        PartsShowMore(b, all, Parts(b, all, vis + {e}, pack'), BuildAll(b, all, vis + {e}, pack'), later, rest);
      }
    }
  }

  lemma {:induction false} EachShows(b: Plan, all: set<PNode>, vis: set<PNode>, n: PNode, ps: seq<Pack>)
    requires Covers(b, all) && PacksIn(all, ps)
    ensures var out := BuildEach(b, all, vis, n, ps);
            |out| == |ps| && forall k :: 0 <= k < |out| ==>
              out[k].Node? && out[k].at == n && PackIn(all, ps[k])
              && PartsShow(b, all, Parts(b, all, vis, ps[k]), out[k].kids)
    decreases |all - vis|, 2, |ps|
  {
    hide Covers, PartsShow, Parts, BuildAll, PackIn;
    if ps != [] {
      assert PackIn(all, ps[0]);
      AllShow(b, all, vis, ps[0]);
      EachShows(b, all, vis, n, ps[1..]);
    }
  }

  /** Of what is shown no helper is left. */
  lemma {:induction false} ShownIsFlat(b: Plan, all: set<PNode>, vis: set<PNode>, n: PNode, t: Tree)
    requires Covers(b, all) && (n.lit.NT? ==> n in all) && !Vanishes(b, vis, n) && Shows(b, all, vis, n, t)
    ensures NoHelpers(b.ebnf, t)
    decreases t, 0
  {
    hide Covers, Parts;
    if !(!n.lit.NT? || n in vis || b.packs(n) == []) {
      CoveredPacks(b, all, n);
      if |b.packs(n)| == 1 {
        assert PackIn(all, b.packs(n)[0]);
        PartsFlat(b, all, Parts(b, all, vis + {n}, b.packs(n)[0]), t.kids);
      } else {
        forall k | 0 <= k < |t.alts|
            ensures forall j :: 0 <= j < |t.alts[k].kids| ==> NoHelpers(b.ebnf, t.alts[k].kids[j]) {
          assert PackIn(all, b.packs(n)[k]);
          PartsFlat(b, all, Parts(b, all, vis + {n}, b.packs(n)[k]), t.alts[k].kids);
        }
      }
    }
  }

  lemma {:induction false} PartsFlat(b: Plan, all: set<PNode>, ps: seq<Part>, ts: seq<Tree>)
    requires Covers(b, all) && (forall i :: 0 <= i < |ps| ==> ps[i].node.lit.NT? ==> ps[i].node in all)
    requires forall i :: 0 <= i < |ps| ==> !Vanishes(b, ps[i].vis, ps[i].node)
    requires PartsShow(b, all, ps, ts)
    ensures forall i :: 0 <= i < |ts| ==> NoHelpers(b.ebnf, ts[i])
    decreases ts, 1
  {
    hide Covers, Shows, NoHelpers;
    forall i | 0 <= i < |ts| ensures NoHelpers(b.ebnf, ts[i]) {
      ShownIsFlat(b, all, ps[i].vis, ps[i].node, ts[i]);
    }
  }

  // ---- the steps a node costs

  ghost function Cost(b: Plan, all: set<PNode>, vis: set<PNode>, n: PNode): nat
    requires Covers(b, all) && (n.lit.NT? ==> n in all)
    decreases |all - vis|, 0, 0
  {
    if Bare(b, vis, n) then 0
    else
      OneLess(all, vis, n);
      assert PacksIn(all, b.packs(n));
      1 + CostEach(b, all, vis + {n}, b.packs(n))
  }

  ghost function CostAll(b: Plan, all: set<PNode>, vis: set<PNode>, pack: Pack): nat
    requires Covers(b, all) && PackIn(all, pack)
    decreases |all - vis|, 1, |pack|
  {
    if pack == [] then 0 else 1 + Cost(b, all, vis, pack[0]) + CostAll(b, all, vis, pack[1..])
  }

  ghost function CostEach(b: Plan, all: set<PNode>, vis: set<PNode>, ps: seq<Pack>): nat
    requires Covers(b, all) && PacksIn(all, ps)
    decreases |all - vis|, 2, |ps|
  {
    if ps == [] then 0
    else
      assert PackIn(all, ps[0]);
      1 + CostAll(b, all, vis, ps[0]) + CostEach(b, all, vis, ps[1..])
  }

  // ---- frames

  /** `sink` is the frame that takes the output, -1 for the result; `pi` and `ei` say which element comes next. */
  datatype Frame = Frame(node: PNode, sink: int, flatten: bool, amb: bool, packs: seq<Pack>, pi: nat, ei: nat,
                         children: seq<Tree>, alts: seq<Tree>)

  function Visited(st: seq<Frame>): set<PNode> {
    if st == [] then {} else Visited(st[..|st| - 1]) + {st[|st| - 1].node}
  }

  /** Where output goes when the frames of `st` are open: the last one that builds a node. */
  function Nearest(st: seq<Frame>): int {
    if st == [] then -1 else if st[|st| - 1].flatten then Nearest(st[..|st| - 1]) else |st| - 1
  }

  ghost predicate FrameOK(b: Plan, all: set<PNode>, f: Frame) {
    && f.node in all && f.node.lit.NT? && PacksIn(all, f.packs)
    && f.pi <= |f.packs| && (f.pi < |f.packs| ==> f.ei <= |f.packs[f.pi]|) && (f.pi == |f.packs| ==> f.ei == 0)
    && (f.flatten ==> !f.amb && f.children == []) && (!f.amb ==> |f.packs| == 1)
    && (f.amb && f.pi == |f.packs| ==> f.children == [])
  }

  /** Every frame is in the middle of a pack. */
  ghost predicate Busy(st: seq<Frame>) {
    forall i :: 0 <= i < |st| ==> st[i].pi < |st[i].packs|
  }

  ghost predicate StackOK(b: Plan, all: set<PNode>, st: seq<Frame>)
  {
    st != [] ==>
      var n := |st| - 1;
      && StackOK(b, all, st[..n]) && FrameOK(b, all, st[n]) && st[n].sink == Nearest(st[..n])
      && st[n].node !in Visited(st[..n]) && Busy(st[..n])
  }

  /** What the elements still to come of a frame's current pack give. */
  ghost function Rest(b: Plan, all: set<PNode>, vis: set<PNode>, f: Frame): seq<Tree>
    requires Covers(b, all) && FrameOK(b, all, f)
  {
    if f.pi < |f.packs| then
      assert PackIn(all, f.packs[f.pi]);
      BuildAll(b, all, vis, f.packs[f.pi][f.ei..])
    else []
  }

  /** What a frame will give its sink, when `out` comes from the frames above it first. */
  ghost function Gives(b: Plan, all: set<PNode>, vis: set<PNode>, f: Frame, out: seq<Tree>): seq<Tree>
    requires Covers(b, all) && FrameOK(b, all, f)
  {
    var rest := Rest(b, all, vis, f);
    if f.flatten then out + rest
    else if !f.amb then [Node(f.node, f.children + out + rest)]
    else if f.pi < |f.packs| then
      [Amb(f.node.from, f.node.to,
          f.alts + [Node(f.node, f.children + out + rest)] + BuildEach(b, all, vis, f.node, f.packs[f.pi + 1..]))]
    else [Amb(f.node.from, f.node.to, f.alts)]
  }

  /** The whole result, when `out` comes next from above the frames of `st`. */
  ghost function Total(b: Plan, all: set<PNode>, st: seq<Frame>, result: seq<Tree>, out: seq<Tree>): seq<Tree>
    requires Covers(b, all) && StackOK(b, all, st)
    decreases |st|
  {
    if st == [] then result + out
    else Total(b, all, st[..|st| - 1], result, Gives(b, all, Visited(st), st[|st| - 1], out))
  }

  ghost function FrameLeft(b: Plan, all: set<PNode>, vis: set<PNode>, f: Frame): nat
    requires Covers(b, all) && FrameOK(b, all, f)
  {
    1 + if f.pi < |f.packs| then
          assert PackIn(all, f.packs[f.pi]);
          1 + CostAll(b, all, vis, f.packs[f.pi][f.ei..]) + CostEach(b, all, vis, f.packs[f.pi + 1..])
        else 0
  }

  ghost function Left(b: Plan, all: set<PNode>, st: seq<Frame>): nat
    requires Covers(b, all) && StackOK(b, all, st)
    decreases |st|
  {
    if st == [] then 0 else Left(b, all, st[..|st| - 1]) + FrameLeft(b, all, Visited(st), st[|st| - 1])
  }

  // ---- emitting a tree into the sink

  function Emitted(st: seq<Frame>, sink: int, t: Tree): seq<Frame> {
    if 0 <= sink < |st| then st[sink := st[sink].(children := st[sink].children + [t])] else st
  }

  function Collected(result: seq<Tree>, sink: int, t: Tree): seq<Tree> {
    if sink < 0 then result + [t] else result
  }

  lemma {:induction false} NearestBelow(st: seq<Frame>)
    ensures -1 <= Nearest(st) < |st| && (Nearest(st) >= 0 ==> !st[Nearest(st)].flatten)
  {
    if st != [] && st[|st| - 1].flatten {
      NearestBelow(st[..|st| - 1]);
    }
  }

  /** Only children are different. */
  ghost predicate SameShape(s: seq<Frame>, t: seq<Frame>) {
    |s| == |t| && forall i :: 0 <= i < |s| ==> s[i].(children := t[i].children) == t[i]
  }

  lemma {:induction false} ShapeDecides(s: seq<Frame>, t: seq<Frame>)
    requires SameShape(s, t)
    ensures Visited(s) == Visited(t) && Nearest(s) == Nearest(t)
    decreases |s|
  {
    if s != [] {
      var n := |s| - 1;
      assert SameShape(s[..n], t[..n]);
      ShapeDecides(s[..n], t[..n]);
      assert s[n].(children := t[n].children) == t[n];
    }
  }

  lemma GivesChild(b: Plan, all: set<PNode>, vis: set<PNode>, f: Frame, t: Tree, out: seq<Tree>)
    requires Covers(b, all) && FrameOK(b, all, f) && !f.flatten && f.pi < |f.packs|
    ensures var g := f.(children := f.children + [t]);
            FrameOK(b, all, g) && Gives(b, all, vis, g, out) == Gives(b, all, vis, f, [t] + out)
                && FrameLeft(b, all, vis, g) == FrameLeft(b, all, vis, f)
  {
    hide BuildAll, BuildEach, CostAll, CostEach, Covers;
    assert f.children + [t] + out == f.children + ([t] + out);
  }

  lemma Unstack(b: Plan, all: set<PNode>, st: seq<Frame>, result: seq<Tree>, out: seq<Tree>)
    requires Covers(b, all) && StackOK(b, all, st) && st != []
    ensures var n := |st| - 1;
            && StackOK(b, all, st[..n]) && FrameOK(b, all, st[n])
            && Total(b, all, st, result, out) == Total(b, all, st[..n], result, Gives(b, all, Visited(st), st[n], out))
            && Left(b, all, st) == Left(b, all, st[..n]) + FrameLeft(b, all, Visited(st), st[n])
  {
  }

  lemma Restack(b: Plan, all: set<PNode>, low: seq<Frame>, f: Frame)
    requires Covers(b, all) && StackOK(b, all, low) && FrameOK(b, all, f) && f.sink == Nearest(low)
    requires f.node !in Visited(low)
    requires Busy(low)
    ensures StackOK(b, all, low + [f]) && Visited(low + [f]) == Visited(low) + {f.node}
    ensures Nearest(low + [f]) == if f.flatten then Nearest(low) else |low|
  {
    assert (low + [f])[..|low|] == low;
  }

  /** A tree put into the sink counts as the next output. */
  lemma {:induction false} EmitTotal(b: Plan, all: set<PNode>, st: seq<Frame>, result: seq<Tree>, t: Tree,
          out: seq<Tree>)
    requires Covers(b, all) && StackOK(b, all, st) && Busy(st)
    ensures var s := Emitted(st, Nearest(st), t);
            StackOK(b, all, s) && Left(b, all, s) == Left(b, all, st) && SameShape(st, s) &&
            Total(b, all, s, Collected(result, Nearest(st), t), out) == Total(b, all, st, result, [t] + out)
    decreases |st|, 1
  {
    if st == [] {
      assert result + [t] + out == result + ([t] + out);
    } else {
      var n := |st| - 1;
      var f, s := st[n], Emitted(st, Nearest(st), t);
      NearestBelow(st);
      assert SameShape(st, s);
      ShapeDecides(st, s);
      EmitTop(b, all, st, result, t, out);
    }
  }

  lemma {:induction false} EmitTop(b: Plan, all: set<PNode>, st: seq<Frame>, result: seq<Tree>, t: Tree, out: seq<Tree>)
    requires Covers(b, all) && StackOK(b, all, st) && Busy(st) && st != []
    ensures var s := Emitted(st, Nearest(st), t);
            StackOK(b, all, s) && Left(b, all, s) == Left(b, all, st) &&
            Total(b, all, s, Collected(result, Nearest(st), t), out) == Total(b, all, st, result, [t] + out)
    decreases |st|, 0
  {
    hide StackOK, Total, Left, Gives, FrameLeft, FrameOK, Covers, Visited, Nearest;
    var n := |st| - 1;
    var low, f := st[..n], st[n];
    Sinks(b, all, st);
    assert st == low + [f];
    Restack(b, all, low, f);
    if f.flatten {
      EmitTotal(b, all, low, result, t, Gives(b, all, Visited(st), f, out));
      EmitBelow(b, all, low, f, result, t, out);
    } else {
      EmitHere(b, all, low, f, result, t, out);
    }
  }

  lemma EmitBelow(b: Plan, all: set<PNode>, low: seq<Frame>, f: Frame, result: seq<Tree>, t: Tree, out: seq<Tree>)
    requires Covers(b, all) && StackOK(b, all, low) && FrameOK(b, all, f) && f.sink == Nearest(low)
    requires f.node !in Visited(low) && f.flatten
    requires Busy(low)
    requires StackOK(b, all, low + [f])
    requires var l := Emitted(low, Nearest(low), t);
             StackOK(b, all, l) && Left(b, all, l) == Left(b, all, low) && SameShape(low, l) &&
             var more := Gives(b, all, Visited(low + [f]), f, out);
             Total(b, all, l, Collected(result, Nearest(low), t), more) == Total(b, all, low, result, [t] + more)
    ensures var s := Emitted(low + [f], Nearest(low), t);
            StackOK(b, all, s) && Left(b, all, s) == Left(b, all, low + [f]) &&
            Total(b, all, s, Collected(result, Nearest(low), t), out) == Total(b, all, low + [f], result, [t] + out)
  {
    hide StackOK, Total, Left, Gives, FrameLeft, FrameOK, Covers, Visited, Nearest, Emitted, SameShape, Busy;
    var l := Emitted(low, Nearest(low), t);
    NearestBelow(low);
    ShapeDecides(low, l);
    EmittedBelow(low, f, Nearest(low), t);
    ShapeBusy(low, l);
    TopOf(low, f);
    TopOf(l, f);
    Restack(b, all, low, f);
    Restack(b, all, l, f);
    Unstack(b, all, low + [f], result, [t] + out);
    Unstack(b, all, l + [f], Collected(result, Nearest(low), t), out);
    FlattenPasses(b, all, Visited(low + [f]), f, t, out);
  }

  lemma EmittedBelow(low: seq<Frame>, f: Frame, sink: int, t: Tree)
    requires sink < |low|
    ensures Emitted(low + [f], sink, t) == Emitted(low, sink, t) + [f]
  {
  }

  lemma EmittedAt(low: seq<Frame>, f: Frame, t: Tree)
    ensures Emitted(low + [f], |low|, t) == low + [f.(children := f.children + [t])]
  {
  }

  lemma ShapeBusy(s: seq<Frame>, t: seq<Frame>)
    requires SameShape(s, t) && Busy(s)
    ensures |s| == |t| && Busy(t)
  {
    forall i | 0 <= i < |t| ensures t[i].pi < |t[i].packs| {
      assert s[i].(children := t[i].children) == t[i];
    }
  }

  lemma EmitHere(b: Plan, all: set<PNode>, low: seq<Frame>, f: Frame, result: seq<Tree>, t: Tree, out: seq<Tree>)
    requires Covers(b, all) && StackOK(b, all, low) && FrameOK(b, all, f) && f.sink == Nearest(low)
    requires f.node !in Visited(low) && !f.flatten
    requires f.pi < |f.packs| && Busy(low)
    requires StackOK(b, all, low + [f])
    ensures var s := Emitted(low + [f], |low|, t);
            StackOK(b, all, s) && Left(b, all, s) == Left(b, all, low + [f]) &&
            Total(b, all, s, result, out) == Total(b, all, low + [f], result, [t] + out)
  {
    hide StackOK, Total, Left, Gives, FrameLeft, FrameOK, Covers, Visited, Nearest, Emitted, Busy;
    var g := f.(children := f.children + [t]);
    EmittedAt(low, f, t);
    TopOf(low, f);
    TopOf(low, g);
    GivesChild(b, all, Visited(low + [f]), f, t, out);
    Restack(b, all, low, f);
    Restack(b, all, low, g);
    Unstack(b, all, low + [f], result, [t] + out);
    Unstack(b, all, low + [g], result, out);
  }

  lemma FlattenPasses(b: Plan, all: set<PNode>, vis: set<PNode>, f: Frame, t: Tree, out: seq<Tree>)
    requires Covers(b, all) && FrameOK(b, all, f) && f.flatten
    ensures Gives(b, all, vis, f, [t] + out) == [t] + Gives(b, all, vis, f, out)
  {
    assert [t] + out + Rest(b, all, vis, f) == [t] + (out + Rest(b, all, vis, f));
  }

  lemma Sinks(b: Plan, all: set<PNode>, st: seq<Frame>)
    requires StackOK(b, all, st) && st != []
    ensures var n := |st| - 1;
            && StackOK(b, all, st[..n]) && st[n].sink == Nearest(st[..n])
            && st[n].node !in Visited(st[..n]) && FrameOK(b, all, st[n])
  {
  }

  // ---- the four kinds of step

  lemma SplitTop(st: seq<Frame>)
    requires st != []
    ensures st == st[..|st| - 1] + [st[|st| - 1]]
  {
  }

  /** The next element of the top frame: what it builds comes next. */
  lemma ElementTaken(b: Plan, all: set<PNode>, low: seq<Frame>, f: Frame, result: seq<Tree>)
    requires Covers(b, all) && StackOK(b, all, low + [f]) && f.pi < |f.packs| && Busy(low + [f])
    requires f.ei < |f.packs[f.pi]|
    ensures var g, n := f.(ei := f.ei + 1), f.packs[f.pi][f.ei];
            && (n.lit.NT? ==> n in all) && StackOK(b, all, low + [g]) && Visited(low + [g]) == Visited(low + [f])
                && Busy(low + [g])
            && Nearest(low + [g]) == Nearest(low + [f])
            && Total(b, all, low + [f], result, []) ==
                Total(b, all, low + [g], result, Build(b, all, Visited(low + [f]), n))
            && Left(b, all, low + [f]) == Left(b, all, low + [g]) + 1 + Cost(b, all, Visited(low + [f]), n)
  {
    hide StackOK, Total, Left, Gives, FrameLeft, Visited, Nearest, Build, Cost, FrameOK, Covers, Busy;
    var g, n := f.(ei := f.ei + 1), f.packs[f.pi][f.ei];
    Opened(b, all, low, f);
    assert PackIn(all, f.packs[f.pi]);
    Restack(b, all, low, f);
    Restack(b, all, low, g);
    Unstack(b, all, low + [f], result, []);
    Unstack(b, all, low + [g], result, Build(b, all, Visited(low + [f]), n));
    TopOf(low, f);
    TopOf(low, g);
    ElementGives(b, all, Visited(low + [f]), f);
  }

  lemma TopOf(low: seq<Frame>, f: Frame)
    ensures (low + [f])[..|low|] == low && (low + [f])[|low|] == f
    ensures Busy(low) && f.pi < |f.packs| ==> Busy(low + [f])
  {
  }

  lemma Opened(b: Plan, all: set<PNode>, low: seq<Frame>, f: Frame)
    requires StackOK(b, all, low + [f])
    ensures StackOK(b, all, low) && FrameOK(b, all, f) && f.sink == Nearest(low) && f.node !in Visited(low) && Busy(low)
    ensures PacksIn(all, f.packs)
  {
    var st := low + [f];
    assert st[..|low|] == low;
    forall i | 0 <= i < |low| ensures low[i].pi < |low[i].packs| {
      assert st[i] == low[i];
    }
  }

  lemma ElementGives(b: Plan, all: set<PNode>, vis: set<PNode>, f: Frame)
    requires Covers(b, all) && FrameOK(b, all, f) && f.pi < |f.packs| && f.ei < |f.packs[f.pi]|
    requires f.packs[f.pi][f.ei].lit.NT? ==> f.packs[f.pi][f.ei] in all
    ensures var g, n := f.(ei := f.ei + 1), f.packs[f.pi][f.ei];
            && FrameOK(b, all, g)
            && Gives(b, all, vis, f, []) == Gives(b, all, vis, g, Build(b, all, vis, n))
            && FrameLeft(b, all, vis, f) == FrameLeft(b, all, vis, g) + 1 + Cost(b, all, vis, n)
  {
    hide Build, Cost, BuildEach, CostEach, Covers;
    var g, n := f.(ei := f.ei + 1), f.packs[f.pi][f.ei];
    var rest := f.packs[f.pi][f.ei..];
    assert PackIn(all, f.packs[f.pi]);
    assert rest[0] == n && rest[1..] == f.packs[f.pi][g.ei..];
    var out := Build(b, all, vis, n);
    assert Rest(b, all, vis, f) == out + Rest(b, all, vis, g);
    assert f.children + [] + (out + Rest(b, all, vis, g)) == f.children + out + Rest(b, all, vis, g);
  }

  /** A pack is finished: an alternative is put away, and the next pack begins. */
  function NextPack(f: Frame): Frame {
    (if f.amb then f.(alts := f.alts + [Node(f.node, f.children)], children := []) else f).(pi := f.pi + 1, ei := 0)
  }

  lemma PackEnds(b: Plan, all: set<PNode>, low: seq<Frame>, f: Frame, result: seq<Tree>)
    requires Covers(b, all) && StackOK(b, all, low + [f]) && f.pi < |f.packs| && f.ei == |f.packs[f.pi]|
    ensures var g := NextPack(f);
            && StackOK(b, all, low + [g]) && Visited(low + [g]) == Visited(low + [f])
            && Total(b, all, low + [f], result, []) == Total(b, all, low + [g], result, [])
            && Left(b, all, low + [f]) > Left(b, all, low + [g])
  {
    hide StackOK, Total, Left, Gives, FrameLeft, Visited, Nearest, NextPack;
    var g := NextPack(f);
    Opened(b, all, low, f);
    PackGives(b, all, Visited(low + [f]), f);
    Restack(b, all, low, f);
    Restack(b, all, low, g);
    Unstack(b, all, low + [f], result, []);
    Unstack(b, all, low + [g], result, []);
    assert (low + [f])[..|low|] == low && (low + [g])[..|low|] == low;
  }

  lemma PackGives(b: Plan, all: set<PNode>, vis: set<PNode>, f: Frame)
    requires Covers(b, all) && FrameOK(b, all, f) && f.pi < |f.packs| && f.ei == |f.packs[f.pi]|
    ensures var g := NextPack(f);
            && FrameOK(b, all, g) && g.node == f.node && g.sink == f.sink
            && Gives(b, all, vis, f, []) == Gives(b, all, vis, g, [])
                && FrameLeft(b, all, vis, f) > FrameLeft(b, all, vis, g)
  {
    hide Covers;
    var g := NextPack(f);
    assert Rest(b, all, vis, f) == [];
    assert f.children + [] + [] == f.children;
    if g.pi < |f.packs| {
      var later := f.packs[g.pi..];
      assert later[0] == f.packs[g.pi] && later[1..] == f.packs[g.pi + 1..] && f.packs[g.pi][0..] == f.packs[g.pi];
      assert PackIn(all, f.packs[g.pi]);
      NextAlternative(b, all, vis, f);
    } else {
      assert f.packs[g.pi..] == [];
      assert f.alts + [Node(f.node, f.children)] + [] == f.alts + [Node(f.node, f.children)];
    }
  }

  lemma LastElementGiven(b: Plan, all: set<PNode>, vis: set<PNode>, f: Frame)
    requires Covers(b, all) && FrameOK(b, all, f) && f.pi < |f.packs| && f.ei == |f.packs[f.pi]| && f.amb
    ensures PacksIn(all, f.packs[f.pi + 1..])
    ensures Gives(b, all, vis, f, []) ==
      [Amb(f.node.from, f.node.to,
          f.alts + [Node(f.node, f.children)] + BuildEach(b, all, vis, f.node, f.packs[f.pi + 1..]))]
  {
    hide Covers, BuildEach;
    assert Rest(b, all, vis, f) == [];
    assert f.children + [] + [] == f.children;
  }

  lemma FirstElementNext(b: Plan, all: set<PNode>, vis: set<PNode>, g: Frame)
    requires Covers(b, all) && FrameOK(b, all, g) && g.pi < |g.packs| && g.ei == 0 && g.amb && g.children == []
    ensures PackIn(all, g.packs[g.pi]) && PacksIn(all, g.packs[g.pi + 1..])
    ensures Gives(b, all, vis, g, []) ==
      [Amb(g.node.from, g.node.to,
          g.alts + [Node(g.node, BuildAll(b, all, vis, g.packs[g.pi]))]
          + BuildEach(b, all, vis, g.node, g.packs[g.pi + 1..]))]
  {
    hide Covers, BuildEach, BuildAll;
    assert g.packs[g.pi][0..] == g.packs[g.pi];
    assert [] + [] + BuildAll(b, all, vis, g.packs[g.pi]) == BuildAll(b, all, vis, g.packs[g.pi]);
  }

  lemma EachNext(b: Plan, all: set<PNode>, vis: set<PNode>, n: PNode, ps: seq<Pack>, k: nat)
    requires Covers(b, all) && PacksIn(all, ps) && k < |ps|
    ensures PackIn(all, ps[k]) && PacksIn(all, ps[k..]) && PacksIn(all, ps[k + 1..])
    ensures BuildEach(b, all, vis, n, ps[k..]) ==
            [Node(n, BuildAll(b, all, vis, ps[k]))] + BuildEach(b, all, vis, n, ps[k + 1..])
  {
    hide Covers, BuildAll;
    assert ps[k..][0] == ps[k] && ps[k..][1..] == ps[k + 1..];
  }

  lemma NextAlternative(b: Plan, all: set<PNode>, vis: set<PNode>, f: Frame)
    requires Covers(b, all) && FrameOK(b, all, f) && f.pi + 1 < |f.packs| && f.ei == |f.packs[f.pi]| && f.amb
    ensures Gives(b, all, vis, f, []) == Gives(b, all, vis, NextPack(f), [])
  {
    hide Covers, BuildAll, BuildEach, Gives;
    var g := NextPack(f);
    LastElementGiven(b, all, vis, f);
    FirstElementNext(b, all, vis, g);
    EachNext(b, all, vis, f.node, f.packs, g.pi);
    Regroup(g.alts, [Node(f.node, BuildAll(b, all, vis, f.packs[g.pi]))],
        BuildEach(b, all, vis, f.node, f.packs[g.pi + 1..]));
  }

  lemma Regroup(x: seq<Tree>, y: seq<Tree>, z: seq<Tree>)
    ensures x + (y + z) == x + y + z
  {
  }

  /** The frame a node is opened with. */
  function NewFrame(b: Plan, n: PNode, sink: int): Frame
    requires b.packs(n) != []
  {
    var ps := b.packs(n);
    Frame(n, sink, |ps| == 1 && b.ebnf(n), |ps| > 1, ps, 0, 0, [], [])
  }

  lemma FramePushed(b: Plan, all: set<PNode>, st: seq<Frame>, result: seq<Tree>, n: PNode)
    requires Covers(b, all) && StackOK(b, all, st) && Busy(st) && n in all && !Bare(b, Visited(st), n)
    ensures var s := st + [NewFrame(b, n, Nearest(st))];
            && StackOK(b, all, s) && Visited(s) == Visited(st) + {n}
            && Total(b, all, s, result, []) == Total(b, all, st, result, Build(b, all, Visited(st), n))
            && Left(b, all, s) == Left(b, all, st) + Cost(b, all, Visited(st), n)
  {
    hide StackOK, Total, Left, Gives, FrameLeft, Visited, Nearest, Build, Cost;
    var g := NewFrame(b, n, Nearest(st));
    NewFrameGives(b, all, Visited(st), n, Nearest(st));
    Restack(b, all, st, g);
    Unstack(b, all, st + [g], result, []);
    assert (st + [g])[..|st|] == st;
  }

  lemma NewFrameGives(b: Plan, all: set<PNode>, vis: set<PNode>, n: PNode, sink: int)
    requires Covers(b, all) && n in all && !Bare(b, vis, n)
    ensures var g := NewFrame(b, n, sink);
            && FrameOK(b, all, g)
            && Gives(b, all, vis + {n}, g, []) == Build(b, all, vis, n)
            && FrameLeft(b, all, vis + {n}, g) == Cost(b, all, vis, n)
  {
    hide BuildAll, CostAll;
    var ps := b.packs(n);
    assert PacksIn(all, ps) && PackIn(all, ps[0]) && ps[0][0..] == ps[0];
    var all0 := BuildAll(b, all, vis + {n}, ps[0]);
    assert [] + [] + all0 == all0 && [] + all0 == all0;
    if |ps| > 1 {
      var each := BuildEach(b, all, vis + {n}, n, ps);
      assert [] + [Node(n, all0)] + BuildEach(b, all, vis + {n}, n, ps[1..]) == each;
    } else {
      assert ps[1..] == [];
    }
  }

  /** What a finished frame hands on. */
  function Handed(f: Frame): seq<Tree> {
    if f.amb then [Amb(f.node.from, f.node.to, f.alts)] else if f.flatten then [] else [Node(f.node, f.children)]
  }

  lemma FramePopped(b: Plan, all: set<PNode>, low: seq<Frame>, f: Frame, result: seq<Tree>)
    requires Covers(b, all) && StackOK(b, all, low + [f]) && f.pi == |f.packs|
    ensures StackOK(b, all, low) && Busy(low) && f.sink == Nearest(low) && f.node !in Visited(low)
    ensures Visited(low + [f]) == Visited(low) + {f.node}
    ensures Total(b, all, low + [f], result, []) == Total(b, all, low, result, Handed(f))
    ensures Left(b, all, low + [f]) > Left(b, all, low)
  {
    hide StackOK, Total, Left, Visited, Nearest;
    Opened(b, all, low, f);
    Restack(b, all, low, f);
    Unstack(b, all, low + [f], result, []);
    assert (low + [f])[..|low|] == low;
    assert f.children + [] + [] == f.children;
  }

  // ---- the builder

  /** The chart can be searched for the packs of every node, and they lead to no other nodes. */
  ghost predicate Serves(o: Request, all: set<PNode>) {
    && ChartOK(o.c) && |o.c.w| < SIZE_MAX && |o.c.G| <= SIZE_MAX && Covers(PlanOf(o), all)
    && forall n :: n in all ==> n.to <= |o.c.w|
  }

  class Builder {
    const o: Request
    ghost const plan: Plan
    ghost const all: set<PNode>
    var stack: seq<Frame>
    var result: seq<Tree>
    var visiting: set<PNode>

    constructor (r: Request, ghost nodes: set<PNode>)
      requires Serves(r, nodes)
      ensures o == r && plan == PlanOf(r) && all == nodes && stack == [] && result == [] && visiting == {}
    {
      o, plan, all := r, PlanOf(r), nodes;
      stack, result, visiting := [], [], {};
    }

    ghost predicate Valid()
      reads this
    {
      Serves(o, all) && plan == PlanOf(o) && StackOK(plan, all, stack) && visiting == Visited(stack)
    }

    ghost function Outcome(out: seq<Tree>): seq<Tree>
      requires Valid()
      reads this
    {
      Total(plan, all, stack, result, out)
    }

    ghost function Steps(): nat
      requires Valid()
      reads this
    {
      Left(plan, all, stack)
    }

    /** Puts a tree where a frame's output goes. */
    method Emit(sink: int, t: Tree)
      requires Valid() && Busy(stack) && sink == Nearest(stack)
      modifies `stack, `result
      ensures Valid() && SameShape(old(stack), stack) && Steps() == old(Steps())
      ensures Outcome([]) == old(Outcome([t]))
    {
      hide StackOK, Total, Left, Nearest, Visited, Covers;
      EmitTotal(plan, all, stack, result, t, []);
      NearestBelow(stack);
      assert [t] + [] == [t];
      ShapeDecides(stack, Emitted(stack, sink, t));
      if sink < 0 {
        result := result + [t];
      } else {
        stack := stack[sink := stack[sink].(children := stack[sink].children + [t])];
      }
    }

    /** Opens a node for its parent, the top frame, or for the result: a frame, a leaf, or nothing. */
    method OpenNode(n: PNode, from: int)
      requires Valid() && Busy(stack) && n.lit.NT? && n in all && n !in visiting && from == |stack| - 1
      modifies `stack, `result, `visiting
      ensures Valid()
      ensures Outcome([]) == old(Outcome(Build(plan, all, visiting, n)))
      ensures Steps() == old(Steps()) + old(Cost(plan, all, visiting, n))
    {
      hide StackOK, Total, Left, Visited, Covers, Build, Cost;
      var packs := PacksFor(o, n);
      SinkIs(plan, all, stack);
      var sink := if from == -1 then -1 else if stack[from].flatten then stack[from].sink else from;
      if packs == [] {
        BareBuild(plan, all, visiting, n);
        if !o.ebnf(n) {
          Emit(sink, Leaf(n));
        }
        return;
      }
      FramePushed(plan, all, stack, result, n);
      visiting := visiting + {n};
      stack := stack + [Frame(n, sink, |packs| == 1 && o.ebnf(n), |packs| > 1, packs, 0, 0, [], [])];
    }

    /** The next element of the top frame's current pack. */
    method TakeElement()
      requires Valid() && stack != [] && Busy(stack)
      requires var f := stack[|stack| - 1]; f.pi < |f.packs| && f.ei < |f.packs[f.pi]|
      modifies `stack, `result, `visiting
      ensures Valid() && Outcome([]) == old(Outcome([])) && Steps() < old(Steps())
    {
      hide StackOK, Total, Left, Visited, Covers, Build, Cost, Busy;
      var fi := |stack| - 1;
      var f := stack[fi];
      var nxt := f.packs[f.pi][f.ei];
      SplitTop(stack);
      TopReady(plan, all, stack);
      ElementTaken(plan, all, stack[..fi], f, result);
      stack := stack[..fi] + [f.(ei := f.ei + 1)];
      SinkIs(plan, all, stack);
      var sink := if f.flatten then f.sink else fi;
      if !nxt.lit.NT? {
        BareBuild(plan, all, visiting, nxt);
        Emit(sink, Leaf(nxt));
      } else if nxt in visiting {
        BareBuild(plan, all, visiting, nxt);
        if !o.ebnf(nxt) {
          Emit(sink, Leaf(nxt));
        }
      } else {
        OpenNode(nxt, fi);
      }
    }

    /** Closes the top frame and hands its tree on. */
    method CloseFrame()
      requires Valid() && stack != [] && stack[|stack| - 1].pi == |stack[|stack| - 1].packs|
      modifies `stack, `result, `visiting
      ensures Valid() && Outcome([]) == old(Outcome([])) && Steps() < old(Steps())
    {
      hide StackOK, Total, Left, Visited, Covers, Busy;
      var f := stack[|stack| - 1];
      SplitTop(stack);
      FramePopped(plan, all, stack[..|stack| - 1], f, result);
      visiting := visiting - {f.node};
      stack := stack[..|stack| - 1];
      if f.amb {
        Emit(f.sink, Amb(f.node.from, f.node.to, f.alts));
      } else if !f.flatten {
        Emit(f.sink, Node(f.node, f.children));
      }
    }

    /** Builds the tree of a node: it stops, and gives what the recursion gives. */
    method BuildTree(root: PNode) returns (r: Option<Tree>)
      requires Valid() && (root.lit.NT? ==> root in all) && stack == [] && result == []
      modifies `stack, `result, `visiting
      ensures var out := Build(plan, all, {}, root); r == if out == [] then None else Some(out[0])
      ensures !Helper(plan, root) ==> r.Some? && Shows(plan, all, {}, root, r.value) && NoHelpers(o.ebnf, r.value)
      ensures stack == [] && visiting == {}
    {
      hide Total, Left, Covers, Build, Cost, Shows, NoHelpers;
      if !Helper(plan, root) {
        BuildShows(plan, all, {}, root);
        ShownIsFlat(plan, all, {}, root, Build(plan, all, {}, root)[0]);
      }
      if !root.lit.NT? {
        BareBuild(plan, all, {}, root);
        return Some(Leaf(root));
      }
      OpenNode(root, -1);
      ghost var target := Build(plan, all, {}, root);
      EmptyTotal(plan, all, [], target);
      BuildLoop();
      EmptyTotal(plan, all, result, []);
      assert result + [] == result && [] + target == target;
      return if result == [] then None else Some(result[0]);
    }

    method BuildLoop()
      requires Valid()
      modifies `stack, `result, `visiting
      ensures Valid() && stack == [] && Outcome([]) == old(Outcome([]))
      ensures visiting == {}
    {
      hide StackOK, Total, Left, Covers, Visited, Busy;
      ghost var target := Outcome([]);
      while stack != []
        invariant Valid() && Outcome([]) == target
        decreases Steps()
      {
        var fi := |stack| - 1;
        var f := stack[fi];
        TopReady(plan, all, stack);
        if f.pi < |f.packs| {
          if f.ei < |f.packs[f.pi]| {
            TakeElement();
            continue;
          }
          SplitTop(stack);
          PackEnds(plan, all, stack[..fi], f, result);
          if f.amb {
            f := f.(alts := f.alts + [Node(f.node, f.children)], children := []);
          }
          stack := stack[..fi] + [f.(pi := f.pi + 1, ei := 0)];
          continue;
        }
        CloseFrame();
      }
      NoneVisited();
    }
  }

  lemma NoneVisited()
    ensures Visited([]) == {}
  {
  }

  lemma EmptyTotal(b: Plan, all: set<PNode>, result: seq<Tree>, out: seq<Tree>)
    requires Covers(b, all)
    ensures StackOK(b, all, []) && Total(b, all, [], result, out) == result + out
  {
  }

  lemma SinkIs(b: Plan, all: set<PNode>, st: seq<Frame>)
    requires StackOK(b, all, st)
    ensures Nearest(st) == if st == [] then -1 else if st[|st| - 1].flatten then st[|st| - 1].sink else |st| - 1
  {
  }

  lemma TopReady(b: Plan, all: set<PNode>, st: seq<Frame>)
    requires StackOK(b, all, st) && st != []
    ensures var f := st[|st| - 1];
            f.pi <= |f.packs| && (f.pi < |f.packs| ==> f.ei <= |f.packs[f.pi]| && Busy(st)) && f.node.lit.NT?
  {
  }

  lemma BareBuild(b: Plan, all: set<PNode>, vis: set<PNode>, n: PNode)
    requires Covers(b, all) && (n.lit.NT? ==> n in all) && Bare(b, vis, n)
    ensures Build(b, all, vis, n) == (if n.lit.NT? && b.ebnf(n) then [] else [Leaf(n)]) && Cost(b, all, vis, n) == 0
  {
  }
}
