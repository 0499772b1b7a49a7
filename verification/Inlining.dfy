/** Inlining: nodes that are only scaffolding are replaced by their children, from the bottom up. */
module Inlining {

  import opened Options
  import opened Traversals

  /** Names of nonterminals by id, and the options that name nodes to inline. */
  datatype Shaping = Shaping(names: nat -> string, inlineCharClasses: bool, toInline: set<seq<nat>>)

  function CharClasses(): set<string> {
    {
      "eof", "alnum", "alpha", "blank", "cntrl", "digit", "graph", "lower", "printable", "punct", "space",
      "upper", "xdigit", "unicode_alnum", "unicode_alpha", "unicode_blank", "unicode_cntrl", "unicode_digit",
      "unicode_graph", "unicode_lower", "unicode_printable", "unicode_punct", "unicode_space", "unicode_upper",
      "unicode_xdigit" }
  }

  predicate OccursAt(s: string, sub: string, i: nat) {
    i + |sub| <= |s| && s[i..i + |sub|] == sub
  }

  predicate Contains(s: string, sub: string) {
    exists i :: 0 <= i <= |s| && OccursAt(s, sub, i)
  }

  /** A literal the shaping options inline; only nonterminals are. */
  predicate NodeToInline(o: Shaping, l: Label) {
    l.nt && ((o.inlineCharClasses && o.names(l.id) in CharClasses())
             || Contains(o.names(l.id), "__E_") || Contains(o.names(l.id), "__B_")
             || [l.id] in o.toInline)
  }

  predicate IsAmb(amb: nat, l: Label) {
    l.nt && l.id == amb
  }

  /** Inlinable children are replaced by their own children. */
  function Hoist(o: Shaping, ts: seq<Tree>): seq<Tree> {
    if ts == [] then []
    else (if NodeToInline(o, ts[0].head) then ts[0].kids else [ts[0]]) + Hoist(o, ts[1..])
  }

  /** The function applied to each node; a node of alternatives protects its children. */
  function Inliner(o: Shaping, amb: nat): Tree -> Option<Tree> {
    (t: Tree) =>
      Some(if IsAmb(amb, t.head) then t
           else if exists k :: 0 <= k < |t.kids| && NodeToInline(o, t.kids[k].head) then Node(t.head, Hoist(o, t.kids))
           else t)
  }

  /** The recursion it amounts to. */
  function Inline(o: Shaping, amb: nat, t: Tree): (r: Tree)
    ensures r.head == t.head
    decreases t, 0
  {
    var ks := InlineAll(o, amb, t.kids);
    Node(t.head, if IsAmb(amb, t.head) then ks else Hoist(o, ks))
  }

  function InlineAll(o: Shaping, amb: nat, ts: seq<Tree>): (rs: seq<Tree>)
    ensures |rs| == |ts|
    ensures forall k :: 0 <= k < |ts| ==> rs[k] == Inline(o, amb, ts[k])
    decreases ts, 1
  {
    if ts == [] then [] else [Inline(o, amb, ts[0])] + InlineAll(o, amb, ts[1..])
  }

  lemma {:induction false} NothingToHoist(o: Shaping, ts: seq<Tree>)
    requires forall k :: 0 <= k < |ts| ==> !NodeToInline(o, ts[k].head)
    ensures Hoist(o, ts) == ts
  {
    if ts != [] {
      NothingToHoist(o, ts[1..]);
    }
  }

  lemma InlinerValue(o: Shaping, amb: nat, t: Tree)
    ensures Inliner(o, amb)(t) == Some(if IsAmb(amb, t.head) then t else Node(t.head, Hoist(o, t.kids)))
  {
    if forall k :: 0 <= k < |t.kids| ==> !NodeToInline(o, t.kids[k].head) {
      NothingToHoist(o, t.kids);
    }
  }

  lemma {:induction false} PostIsInline(o: Shaping, amb: nat, t: Tree)
    ensures Post(Inliner(o, amb), All, Build, t) == Some(Inline(o, amb, t))
    decreases t, 0
  {
    hide Inliner, NodeToInline;
    PostAllIsInlineAll(o, amb, t.kids);
    InlinerValue(o, amb, Node(t.head, InlineAll(o, amb, t.kids)));
  }

  lemma {:induction false} PostAllIsInlineAll(o: Shaping, amb: nat, ts: seq<Tree>)
    ensures PostAll(Inliner(o, amb), All, Build, ts) == Some(InlineAll(o, amb, ts))
    decreases ts, 1
  {
    if ts != [] {
      PostIsInline(o, amb, ts[0]);
      PostAllIsInlineAll(o, amb, ts[1..]);
    }
  }

  /** What is left, told by names and options alone: the outline of the nodes that are shown, in order and at their
      depth, and nothing hidden outside alternatives, unless the options list the node of alternatives itself. A tree
      with nothing to hide, and no other, comes back as it was. */
  method InlineNodes(o: Shaping, amb: nat, t: Tree) returns (r: Tree)
    ensures r == Inline(o, amb, t)
    ensures Full(0, r) == Outline(o, amb, true, 0, t)
    ensures r == t <==> Clean(o, amb, t)
    ensures o.names(amb) == "__AMB__" && [amb] !in o.toInline ==> Clean(o, amb, r)
  {
    hide Post, NodeToInline, Hidden;
    PostIsInline(o, amb, t);
    OutlineKept(o, amb, 0, t);
    CleanIsNormal(o, amb, t);
    SecondPass(o, amb, t);
    if o.names(amb) == "__AMB__" && [amb] !in o.toInline {
      AlwaysNormalExactly(o, amb);
      CleanIsNormal(o, amb, Inline(o, amb, t));
    }
    var res := PostOrder(Inliner(o, amb), All, Build, t);
    r := res.value;
  }

  // ---- the leaves

  /** The terminals of a tree from left to right. */
  function Yield(t: Tree): seq<Label>
    decreases t, 0
  {
    (if t.head.nt then [] else [t.head]) + YieldAll(t.kids)
  }

  function YieldAll(ts: seq<Tree>): seq<Label>
    decreases ts, 1
  {
    if ts == [] then [] else Yield(ts[0]) + YieldAll(ts[1..])
  }

  lemma {:induction false} YieldAppend(a: seq<Tree>, b: seq<Tree>)
    ensures YieldAll(a + b) == YieldAll(a) + YieldAll(b)
  {
    if a == [] {
      assert a + b == b;
    } else {
      assert (a + b)[1..] == a[1..] + b;
      YieldAppend(a[1..], b);
    }
  }

  lemma {:induction false} HoistKeepsYield(o: Shaping, ts: seq<Tree>)
    ensures YieldAll(Hoist(o, ts)) == YieldAll(ts)
  {
    if ts != [] {
      HoistKeepsYield(o, ts[1..]);
      YieldAppend(if NodeToInline(o, ts[0].head) then ts[0].kids else [ts[0]], Hoist(o, ts[1..]));
      assert YieldAll([ts[0]]) == Yield(ts[0]) + YieldAll([]);
    }
  }

  /** Inlining keeps the sequence of terminals. */
  lemma {:induction false} InlineKeepsYield(o: Shaping, amb: nat, t: Tree)
    ensures Yield(Inline(o, amb, t)) == Yield(t)
    decreases t, 0
  {
    InlineAllKeepsYield(o, amb, t.kids);
    HoistKeepsYield(o, InlineAll(o, amb, t.kids));
  }

  lemma {:induction false} InlineAllKeepsYield(o: Shaping, amb: nat, ts: seq<Tree>)
    ensures YieldAll(InlineAll(o, amb, ts)) == YieldAll(ts)
    decreases ts, 1
  {
    if ts != [] {
      InlineKeepsYield(o, amb, ts[0]);
      InlineAllKeepsYield(o, amb, ts[1..]);
      var rs := InlineAll(o, amb, ts);
      assert rs[1..] == InlineAll(o, amb, ts[1..]);
    }
  }

  // ---- the normal form

  /** An inlinable node occurs only as the root or directly below a node of alternatives. */
  ghost predicate Normal(o: Shaping, amb: nat, t: Tree) {
    && (IsAmb(amb, t.head) || forall c :: c in t.kids ==> !NodeToInline(o, c.head))
    && forall c :: c in t.kids ==> Normal(o, amb, c)
  }

  /** Somewhere an inlinable node of alternatives with an inlinable child stands below another kind of node. */
  ghost predicate Leaks(o: Shaping, amb: nat, t: Tree) {
    exists c :: c in t.kids && (Leaks(o, amb, c) || LeaksAt(o, amb, t, c))
  }

  ghost predicate LeaksAt(o: Shaping, amb: nat, t: Tree, c: Tree) {
    && !IsAmb(amb, t.head) && IsAmb(amb, c.head) && NodeToInline(o, c.head)
    && exists d :: d in c.kids && NodeToInline(o, d.head)
  }

  lemma {:induction false} Hoisted(o: Shaping, ts: seq<Tree>, x: Tree)
    ensures x in Hoist(o, ts) <==> exists c :: c in ts && if NodeToInline(o, c.head) then x in c.kids else x == c
  {
    if ts != [] {
      Hoisted(o, ts[1..], x);
      assert forall c :: c in ts <==> c == ts[0] || c in ts[1..];
    }
  }

  lemma InlinedHeads(o: Shaping, amb: nat, t: Tree)
    requires IsAmb(amb, t.head)
    ensures (exists d :: d in t.kids && NodeToInline(o, d.head)) <==>
            (exists d :: d in Inline(o, amb, t).kids && NodeToInline(o, d.head))
  {
    var ks := Inline(o, amb, t).kids;
    if d :| d in t.kids && NodeToInline(o, d.head) {
      var k :| 0 <= k < |t.kids| && t.kids[k] == d;
      assert ks[k] in ks && ks[k].head == d.head;
    }
    if d :| d in ks && NodeToInline(o, d.head) {
      var k :| 0 <= k < |ks| && ks[k] == d;
      assert t.kids[k] in t.kids && t.kids[k].head == d.head;
    }
  }

  /** The result is in normal form exactly when nothing leaks out of a node of alternatives. */
  lemma {:induction false} NormalExactly(o: Shaping, amb: nat, t: Tree)
    ensures Normal(o, amb, Inline(o, amb, t)) <==> !Leaks(o, amb, t)
    decreases t
  {
    var ks := InlineAll(o, amb, t.kids);
    var r := Inline(o, amb, t);
    forall k | 0 <= k < |ks| ensures Normal(o, amb, ks[k]) <==> !Leaks(o, amb, t.kids[k]) {
      NormalExactly(o, amb, t.kids[k]);
    }
    if Leaks(o, amb, t) {
      var c :| c in t.kids && (Leaks(o, amb, c) || LeaksAt(o, amb, t, c));
      var k :| 0 <= k < |t.kids| && t.kids[k] == c;
      LeakSpoils(o, amb, t, k);
    } else {
      NoLeakNormal(o, amb, t);
    }
  }

  lemma LeakSpoils(o: Shaping, amb: nat, t: Tree, k: nat)
    requires k < |t.kids|
    requires !Normal(o, amb, Inline(o, amb, t.kids[k])) || LeaksAt(o, amb, t, t.kids[k])
    ensures !Normal(o, amb, Inline(o, amb, t))
  {
    var ks := InlineAll(o, amb, t.kids);
    var r := Inline(o, amb, t);
    var c := ks[k];
    assert c in ks;
    if IsAmb(amb, t.head) {
      assert r.kids == ks;
    } else if !NodeToInline(o, c.head) {
      Hoisted(o, ks, c);
      assert c in r.kids;
    } else {
      var d: Tree;
      if LeaksAt(o, amb, t, t.kids[k]) {
        InlinedHeads(o, amb, t.kids[k]);
        d :| d in c.kids && NodeToInline(o, d.head);
      } else {
        d :| d in c.kids && (NodeToInline(o, d.head) || !Normal(o, amb, d));
      }
      Hoisted(o, ks, d);
      assert d in r.kids;
    }
  }

  /** What is hoisted from an inlined child is in normal form and no longer inlinable, when nothing leaks. */
  lemma HoistedNormal(o: Shaping, amb: nat, t: Tree, k: nat, x: Tree)
    requires k < |t.kids| && !IsAmb(amb, t.head) && !LeaksAt(o, amb, t, t.kids[k])
    requires Normal(o, amb, Inline(o, amb, t.kids[k]))
    requires var c := Inline(o, amb, t.kids[k]); if NodeToInline(o, c.head) then x in c.kids else x == c
    ensures !NodeToInline(o, x.head) && Normal(o, amb, x)
  {
    hide NodeToInline, Inline;
    if IsAmb(amb, Inline(o, amb, t.kids[k]).head) {
      InlinedHeads(o, amb, t.kids[k]);
    }
  }

  lemma NoLeakNormal(o: Shaping, amb: nat, t: Tree)
    requires !Leaks(o, amb, t)
    requires forall k :: 0 <= k < |t.kids| ==> Normal(o, amb, InlineAll(o, amb, t.kids)[k])
    ensures Normal(o, amb, Inline(o, amb, t))
  {
    hide NodeToInline, Hoist;
    var ks := InlineAll(o, amb, t.kids);
    var r := Inline(o, amb, t);
    if !IsAmb(amb, t.head) {
      forall x | x in r.kids ensures !NodeToInline(o, x.head) && Normal(o, amb, x) {
        Hoisted(o, ks, x);
        var c :| c in ks && if NodeToInline(o, c.head) then x in c.kids else x == c;
        var k :| 0 <= k < |ks| && ks[k] == c;
        assert t.kids[k] in t.kids && !LeaksAt(o, amb, t, t.kids[k]);
        HoistedNormal(o, amb, t, k, x);
      }
    }
  }

  lemma {:induction false} ShrinksUnlessNormal(o: Shaping, amb: nat, t: Tree)
    ensures Size(Inline(o, amb, t)) <= Size(t)
    ensures !Normal(o, amb, t) ==> Size(Inline(o, amb, t)) < Size(t)
    ensures Normal(o, amb, t) ==> Inline(o, amb, t) == t
    decreases t, 0
  {
    var ks := InlineAll(o, amb, t.kids);
    AllShrink(o, amb, t.kids);
    HoistShrinks(o, ks);
    forall k | 0 <= k < |ks| ensures ks[k].head == t.kids[k].head && t.kids[k] in t.kids && ks[k] in ks {
    }
    if Normal(o, amb, t) && !IsAmb(amb, t.head) {
      NothingToHoist(o, ks);
    }
    if !Normal(o, amb, t) && forall c :: c in t.kids ==> Normal(o, amb, c) {
      var c :| c in t.kids && NodeToInline(o, c.head);
    }
  }

  lemma {:induction false} AllShrink(o: Shaping, amb: nat, ts: seq<Tree>)
    ensures SizeAll(InlineAll(o, amb, ts)) <= SizeAll(ts)
    ensures (exists c :: c in ts && !Normal(o, amb, c)) ==> SizeAll(InlineAll(o, amb, ts)) < SizeAll(ts)
    ensures (forall c :: c in ts ==> Normal(o, amb, c)) ==> InlineAll(o, amb, ts) == ts
    decreases ts, 1
  {
    if ts != [] {
      ShrinksUnlessNormal(o, amb, ts[0]);
      AllShrink(o, amb, ts[1..]);
      var rs := InlineAll(o, amb, ts);
      assert rs == [rs[0]] + InlineAll(o, amb, ts[1..]);
      assert rs[1..] == InlineAll(o, amb, ts[1..]);
      assert forall c :: c in ts <==> c == ts[0] || c in ts[1..];
    }
  }

  lemma {:induction false} SizeAppend(a: seq<Tree>, b: seq<Tree>)
    ensures SizeAll(a + b) == SizeAll(a) + SizeAll(b)
  {
    if a == [] {
      assert a + b == b;
    } else {
      assert (a + b)[1..] == a[1..] + b;
      SizeAppend(a[1..], b);
    }
  }

  lemma {:induction false} HoistShrinks(o: Shaping, ts: seq<Tree>)
    ensures SizeAll(Hoist(o, ts)) <= SizeAll(ts)
    ensures (exists c :: c in ts && NodeToInline(o, c.head)) ==> SizeAll(Hoist(o, ts)) < SizeAll(ts)
  {
    if ts != [] {
      HoistShrinks(o, ts[1..]);
      SizeAppend(if NodeToInline(o, ts[0].head) then ts[0].kids else [ts[0]], Hoist(o, ts[1..]));
      assert SizeAll([ts[0]]) == Size(ts[0]) + SizeAll([]);
      assert forall c :: c in ts <==> c == ts[0] || c in ts[1..];
    }
  }

  /** A pass leaves alone exactly the trees in normal form, so a second pass changes nothing exactly when nothing
      leaked in the first. */
  lemma SecondPass(o: Shaping, amb: nat, t: Tree)
    ensures Inline(o, amb, t) == t <==> Normal(o, amb, t)
    ensures Inline(o, amb, Inline(o, amb, t)) == Inline(o, amb, t) <==> !Leaks(o, amb, t)
  {
    ShrinksUnlessNormal(o, amb, t);
    ShrinksUnlessNormal(o, amb, Inline(o, amb, t));
    NormalExactly(o, amb, t);
  }

  lemma {:induction false} NoLeakUnlessAmbInlined(o: Shaping, amb: nat, t: Tree)
    requires forall l: Label :: IsAmb(amb, l) ==> !NodeToInline(o, l)
    ensures !Leaks(o, amb, t)
    decreases t
  {
    forall c | c in t.kids ensures !Leaks(o, amb, c) && !LeaksAt(o, amb, t, c) {
      NoLeakUnlessAmbInlined(o, amb, c);
    }
  }

  /** The node of alternatives has a name of its own, which no rule inlines; only the option that lists nodes can. */
  lemma AlwaysNormalExactly(o: Shaping, amb: nat)
    requires o.names(amb) == "__AMB__"
    ensures (forall t :: Normal(o, amb, Inline(o, amb, t))) <==> [amb] !in o.toInline
  {
    AmbName(o, amb);
    if [amb] in o.toInline {
      var d := Label(true, amb, 0, 0);
      var c := Node(d, [Node(d, [])]);
      var t := Node(Label(true, amb + 1, 0, 0), [c]);
      assert Node(d, []) in c.kids && c in t.kids;
      assert LeaksAt(o, amb, t, c);
      NormalExactly(o, amb, t);
    } else {
      forall t ensures Normal(o, amb, Inline(o, amb, t)) {
        NoLeakUnlessAmbInlined(o, amb, t);
        NormalExactly(o, amb, t);
      }
    }
  }

  lemma AmbName(o: Shaping, amb: nat)
    requires o.names(amb) == "__AMB__"
    ensures forall l: Label :: IsAmb(amb, l) ==> (NodeToInline(o, l) <==> [amb] in o.toInline)
  {
    var s := "__AMB__";
    forall sub | sub == "__E_" || sub == "__B_" ensures !Contains(s, sub) {
      forall i | 0 <= i <= |s| ensures !OccursAt(s, sub, i) {
        if i + |sub| <= |s| {
          assert s[i..i + |sub|][2] == s[i + 2] && s[i..i + |sub|][0] == s[i] && s[i..i + |sub|][1] == s[i + 1];
        }
      }
    }
    assert s !in CharClasses() by {
      assert |s| == 7 && s[0] == '_';
    }
  }

  // ---- which nodes go and what is left, told by names alone

  function Posix(): set<string> {
    { "alnum", "alpha", "blank", "cntrl", "digit", "graph", "lower", "printable", "punct", "space", "upper", "xdigit" }
  }

  /** The name of a character class: the end of the input, a class of ASCII characters or one of all characters. */
  ghost predicate ClassName(s: string) {
    s == "eof" || s in Posix() || exists p :: p in Posix() && s == "unicode_" + p
  }

  predicate Around(s: string, u: string, mark: string, v: string) {
    s == u + mark + v
  }

  /** A nonterminal made for a list or for binarization, one that the options list alone, or, when the options say so,
      one that is named like a character class. */
  ghost predicate Hidden(o: Shaping, l: Label) {
    l.nt && ((exists u, v :: Around(o.names(l.id), u, "__E_", v))
             || (exists u, v :: Around(o.names(l.id), u, "__B_", v))
             || [l.id] in o.toInline
             || (o.inlineCharClasses && ClassName(o.names(l.id))))
  }

  lemma ContainsIsAround(s: string, mark: string)
    ensures Contains(s, mark) <==> exists u, v :: Around(s, u, mark, v)
  {
    if Contains(s, mark) {
      var i :| 0 <= i <= |s| && OccursAt(s, mark, i);
      assert s == s[..i] + s[i..i + |mark|] + s[i + |mark|..];
      assert Around(s, s[..i], mark, s[i + |mark|..]);
    }
    if u, v :| Around(s, u, mark, v) {
      assert (u + mark + v)[|u|..|u| + |mark|] == mark;
      assert OccursAt(s, mark, |u|);
    }
  }

  /** The list has 25 names: one for the end, and every class twice. */
  lemma ClassNamesExactly(s: string)
    ensures s in CharClasses() <==> ClassName(s)
  {
    assert "unicode_" + "alnum" == "unicode_alnum" && "unicode_" + "alpha" == "unicode_alpha";
    assert "unicode_" + "blank" == "unicode_blank" && "unicode_" + "cntrl" == "unicode_cntrl";
    assert "unicode_" + "digit" == "unicode_digit" && "unicode_" + "graph" == "unicode_graph";
    assert "unicode_" + "lower" == "unicode_lower" && "unicode_" + "printable" == "unicode_printable";
    assert "unicode_" + "punct" == "unicode_punct" && "unicode_" + "space" == "unicode_space";
    assert "unicode_" + "upper" == "unicode_upper" && "unicode_" + "xdigit" == "unicode_xdigit";
  }

  lemma InlinedIsHidden(o: Shaping, l: Label)
    ensures NodeToInline(o, l) <==> Hidden(o, l)
  {
    hide CharClasses, ClassName, Contains, Around;
    ContainsIsAround(o.names(l.id), "__E_");
    ContainsIsAround(o.names(l.id), "__B_");
    ClassNamesExactly(o.names(l.id));
  }

  /** No node below the root is hidden, except directly below a node of alternatives. */
  ghost predicate Clean(o: Shaping, amb: nat, t: Tree) {
    forall c :: c in t.kids ==> (IsAmb(amb, t.head) || !Hidden(o, c.head)) && Clean(o, amb, c)
  }

  lemma {:induction false} CleanIsNormal(o: Shaping, amb: nat, t: Tree)
    ensures Clean(o, amb, t) <==> Normal(o, amb, t)
    decreases t
  {
    hide NodeToInline, Hidden;
    forall c | c in t.kids
      ensures (Clean(o, amb, c) <==> Normal(o, amb, c)) && (Hidden(o, c.head) <==> NodeToInline(o, c.head))
    {
      CleanIsNormal(o, amb, c);
      InlinedIsHidden(o, c.head);
    }
  }

  /** A line of an outline: what a node carries and how many nodes are above it. */
  datatype Line = Line(head: Label, depth: nat)

  /** Every node of a tree, parents first. */
  function Full(depth: nat, t: Tree): seq<Line>
    decreases t, 0
  {
    [Line(t.head, depth)] + FullAll(depth + 1, t.kids)
  }

  function FullAll(depth: nat, ts: seq<Tree>): seq<Line>
    decreases ts, 1
  {
    if ts == [] then [] else Full(depth, ts[0]) + FullAll(depth, ts[1..])
  }

  /** The nodes of a tree that are shown: those that are not hidden, the root and what is directly below a node of
      alternatives. Only they count for the depth. */
  ghost function Outline(o: Shaping, amb: nat, keep: bool, depth: nat, t: Tree): seq<Line>
    decreases t, 0
  {
    if keep || !Hidden(o, t.head) then
      [Line(t.head, depth)] + OutlineAll(o, amb, IsAmb(amb, t.head), depth + 1, t.kids)
    else OutlineAll(o, amb, IsAmb(amb, t.head), depth, t.kids)
  }

  ghost function OutlineAll(o: Shaping, amb: nat, keep: bool, depth: nat, ts: seq<Tree>): seq<Line>
    decreases ts, 1
  {
    if ts == [] then [] else Outline(o, amb, keep, depth, ts[0]) + OutlineAll(o, amb, keep, depth, ts[1..])
  }

  lemma {:induction false} FullAppend(depth: nat, a: seq<Tree>, b: seq<Tree>)
    ensures FullAll(depth, a + b) == FullAll(depth, a) + FullAll(depth, b)
  {
    if a == [] {
      assert a + b == b;
    } else {
      assert (a + b)[1..] == a[1..] + b;
      FullAppend(depth, a[1..], b);
    }
  }

  /** The nodes of the result are the shown nodes of the tree, each below the same shown nodes. */
  lemma {:induction false} OutlineKept(o: Shaping, amb: nat, depth: nat, t: Tree)
    ensures Full(depth, Inline(o, amb, t)) == Outline(o, amb, true, depth, t)
    ensures FullAll(depth, Inline(o, amb, t).kids) == OutlineAll(o, amb, IsAmb(amb, t.head), depth, t.kids)
    decreases t, 0
  {
    OutlinesKept(o, amb, depth, t.kids);
    OutlinesKept(o, amb, depth + 1, t.kids);
  }

  lemma {:induction false} OutlinesKept(o: Shaping, amb: nat, depth: nat, ts: seq<Tree>)
    ensures FullAll(depth, InlineAll(o, amb, ts)) == OutlineAll(o, amb, true, depth, ts)
    ensures FullAll(depth, Hoist(o, InlineAll(o, amb, ts))) == OutlineAll(o, amb, false, depth, ts)
    decreases ts, 1
  {
    hide NodeToInline, Hidden;
    if ts != [] {
      OutlineKept(o, amb, depth, ts[0]);
      OutlinesKept(o, amb, depth, ts[1..]);
      InlinedIsHidden(o, ts[0].head);
      var rs := InlineAll(o, amb, ts);
      assert rs[1..] == InlineAll(o, amb, ts[1..]) && rs[0] == Inline(o, amb, ts[0]);
      FullAppend(depth, if NodeToInline(o, rs[0].head) then rs[0].kids else [rs[0]], Hoist(o, rs[1..]));
      assert FullAll(depth, [rs[0]]) == Full(depth, rs[0]) + FullAll(depth, []);
    }
  }

  /** What follows a tree in an outline begins no deeper than its root. */
  ghost predicate Above(rest: seq<Line>, depth: nat) {
    rest != [] ==> rest[0].depth <= depth
  }

  /** An outline of all nodes determines the tree. */
  lemma {:induction false} OutlineDecides(depth: nat, t: Tree, u: Tree, a: seq<Line>, b: seq<Line>)
    requires Above(a, depth) && Above(b, depth) && Full(depth, t) + a == Full(depth, u) + b
    ensures t == u && a == b
    decreases t, 0
  {
    var x, y := Full(depth, t) + a, Full(depth, u) + b;
    assert x[0] == Line(t.head, depth) && y[0] == Line(u.head, depth);
    assert x[1..] == FullAll(depth + 1, t.kids) + a && y[1..] == FullAll(depth + 1, u.kids) + b;
    OutlinesDecide(depth + 1, t.kids, u.kids, a, b);
  }

  lemma ListAbove(depth: nat, ts: seq<Tree>, a: seq<Line>)
    requires depth > 0 && Above(a, depth - 1)
    ensures Above(FullAll(depth, ts) + a, depth)
    ensures Above(FullAll(depth, ts) + a, depth - 1) <==> ts == []
  {
    if ts == [] {
      assert FullAll(depth, ts) + a == a;
    } else {
      assert Full(depth, ts[0])[0] == Line(ts[0].head, depth);
      assert FullAll(depth, ts)[0] == Line(ts[0].head, depth);
      assert (FullAll(depth, ts) + a)[0] == Line(ts[0].head, depth);
    }
  }

  lemma ListSplits(depth: nat, ts: seq<Tree>, a: seq<Line>)
    requires ts != []
    ensures FullAll(depth, ts) + a == Full(depth, ts[0]) + (FullAll(depth, ts[1..]) + a)
  {
    hide Full;
    assert FullAll(depth, ts) == Full(depth, ts[0]) + FullAll(depth, ts[1..]);
  }

  lemma NothingListed(depth: nat, a: seq<Line>)
    ensures FullAll(depth, []) + a == a
  {
    assert [] + a == a;
  }

  lemma {:induction false} OutlinesDecide(depth: nat, ts: seq<Tree>, us: seq<Tree>, a: seq<Line>, b: seq<Line>)
    requires depth > 0 && Above(a, depth - 1) && Above(b, depth - 1)
    requires FullAll(depth, ts) + a == FullAll(depth, us) + b
    ensures ts == us && a == b
    decreases ts, 1
  {
    hide Full, FullAll, Above;
    ListAbove(depth, ts, a);
    ListAbove(depth, us, b);
    if ts == [] {
      NothingListed(depth, a);
      NothingListed(depth, b);
    } else {
      var x, y := FullAll(depth, ts[1..]) + a, FullAll(depth, us[1..]) + b;
      ListSplits(depth, ts, a);
      ListSplits(depth, us, b);
      ListAbove(depth, ts[1..], a);
      ListAbove(depth, us[1..], b);
      OutlineDecides(depth, ts[0], us[0], x, y);
      OutlinesDecide(depth, ts[1..], us[1..], a, b);
      assert ts == [ts[0]] + ts[1..] && us == [us[0]] + us[1..];
    }
  }
}
