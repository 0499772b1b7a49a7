/** Replacing subtrees: simultaneous, from the top down, and never inside a replacement. */
module Replacement {

  import opened Options
  import opened Traversals

  type Changes = map<Tree, Tree>

  /** An entry that maps a tree to itself is no change. */
  predicate Rewritten(ch: Changes, t: Tree) {
    t in ch && ch[t] != t
  }

  /** What the traversal computes. */
  function Subst(ch: Changes, t: Tree): Tree
    decreases t, 0
  {
    if Rewritten(ch, t) then ch[t] else Node(t.head, SubstAll(ch, t.kids))
  }

  function SubstAll(ch: Changes, ts: seq<Tree>): (rs: seq<Tree>)
    ensures |rs| == |ts|
    ensures forall k :: 0 <= k < |ts| ==> rs[k] == Subst(ch, ts[k])
    decreases ts, 1
  {
    if ts == [] then [] else [Subst(ch, ts[0])] + SubstAll(ch, ts[1..])
  }

  function Lookup(ch: Changes): Tree -> Option<Tree> {
    (t: Tree) => Some(if t in ch then ch[t] else t)
  }

  function ReplaceWalk(ch: Changes): Walk {
    Walk(Lookup(ch), true, All, Keep, Build)
  }

  lemma {:induction false} EnterIsSubst(ch: Changes, t: Tree)
    requires Descends(ReplaceWalk(ch), Size)
    ensures Enter(ReplaceWalk(ch), Size, t) == Some(Subst(ch, t))
    decreases Size(t), |t.kids| + 1
  {
    if !Rewritten(ch, t) {
      KidsAreSubst(ch, t, 0);
      assert t.kids[0..] == t.kids;
    }
  }

  lemma {:induction false} KidsAreSubst(ch: Changes, t: Tree, k: nat)
    requires Descends(ReplaceWalk(ch), Size) && k <= |t.kids|
    ensures Kids(ReplaceWalk(ch), Size, t, k) == Some(SubstAll(ch, t.kids[k..]))
    decreases Size(t), |t.kids| - k
  {
    if k < |t.kids| {
      KidIsSmaller(t.kids, t.kids[k]);
      EnterIsSubst(ch, t.kids[k]);
      KidsAreSubst(ch, t, k + 1);
      assert t.kids[k..][1..] == t.kids[k + 1..];
    }
  }

  method Replace(t: Tree, ch: Changes) returns (r: Tree)
    ensures r == Subst(ch, t)
  {
    hide Descends, Enter;
    SizeRanks(ReplaceWalk(ch));
    EnterIsSubst(ch, t);
    var res := PreOrder(ReplaceWalk(ch), true, t, Size);
    r := res.value;
  }

  // ---- where the replacements end up

  /** No node strictly above the end of the path is rewritten. */
  ghost predicate Outer(ch: Changes, t: Tree, path: seq<nat>) {
    path != [] ==> !Rewritten(ch, t) && (path[0] < |t.kids| ==> Outer(ch, t.kids[path[0]], path[1..]))
  }

  /** Outside the replacements the result has the nodes of the input at the same places, and an outermost rewritten
      node has its replacement there, as it is: all changes happen at once. */
  lemma {:induction false} ReplacedInPlace(ch: Changes, t: Tree, path: seq<nat>)
    requires Outer(ch, t, path)
    ensures At(t, path).None? <==> At(Subst(ch, t), path).None?
    ensures At(t, path).Some? ==>
              var was, now := At(t, path).value, At(Subst(ch, t), path).value;
              if Rewritten(ch, was) then now == ch[was] else now.head == was.head && |now.kids| == |was.kids|
    decreases |path|
  {
    if path != [] && path[0] < |t.kids| {
      ReplacedInPlace(ch, t.kids[path[0]], path[1..]);
    }
  }

  // ---- entries that map a tree to itself

  /** The substitution that stops at every key, identity entries included. */
  function Ideal(ch: Changes, t: Tree): Tree
    decreases t, 0
  {
    if t in ch then ch[t] else Node(t.head, IdealAll(ch, t.kids))
  }

  function IdealAll(ch: Changes, ts: seq<Tree>): (rs: seq<Tree>)
    ensures |rs| == |ts|
    ensures forall k :: 0 <= k < |ts| ==> rs[k] == Ideal(ch, ts[k])
    decreases ts, 1
  {
    if ts == [] then [] else [Ideal(ch, ts[0])] + IdealAll(ch, ts[1..])
  }

  /** Some node of the tree is rewritten. */
  predicate Touched(ch: Changes, t: Tree) {
    Rewritten(ch, t) || exists k :: 0 <= k < |t.kids| && Touched(ch, t.kids[k])
  }

  lemma {:induction false} ChangedWhenTouched(ch: Changes, t: Tree)
    ensures Subst(ch, t) != t <==> Touched(ch, t)
    decreases t
  {
    forall k | 0 <= k < |t.kids| ensures Subst(ch, t.kids[k]) != t.kids[k] <==> Touched(ch, t.kids[k]) {
      ChangedWhenTouched(ch, t.kids[k]);
    }
    if !Rewritten(ch, t) {
      if k :| 0 <= k < |t.kids| && Touched(ch, t.kids[k]) {
        assert Subst(ch, t).kids[k] != t.kids[k];
      } else {
        assert SubstAll(ch, t.kids) == t.kids;
      }
    }
  }

  lemma {:induction false} IdealWhenUntouched(ch: Changes, t: Tree)
    requires forall x :: x in ch && ch[x] == x ==> !Touched(ch, x)
    ensures Subst(ch, t) == Ideal(ch, t)
    decreases t
  {
    if t in ch {
      if !Rewritten(ch, t) {
        ChangedWhenTouched(ch, t);
      }
    } else {
      forall k | 0 <= k < |t.kids| ensures Subst(ch, t.kids[k]) == Ideal(ch, t.kids[k]) {
        IdealWhenUntouched(ch, t.kids[k]);
      }
      assert SubstAll(ch, t.kids) == IdealAll(ch, t.kids);
    }
  }

  ghost predicate Agrees(ch: Changes, t: Tree) {
    Subst(ch, t) == Ideal(ch, t)
  }

  ghost predicate Protects(ch: Changes, x: Tree) {
    x in ch && ch[x] == x ==> !Touched(ch, x)
  }

  /** An identity entry protects what is inside it exactly when nothing inside it is a key with another value: a
      tree mapped to itself counts as unchanged, so the traversal goes on into it. */
  lemma IdentityEntriesExact(ch: Changes)
    ensures (forall t :: Agrees(ch, t)) <==> (forall x :: Protects(ch, x))
  {
    if forall x :: Protects(ch, x) {
      forall t ensures Agrees(ch, t) {
        assert forall x :: x in ch && ch[x] == x ==> Protects(ch, x);
        IdealWhenUntouched(ch, t);
      }
    }
    if forall t :: Agrees(ch, t) {
      forall x ensures Protects(ch, x) {
        ChangedWhenTouched(ch, x);
        assert Agrees(ch, x);
      }
    }
  }

  /** A tree that is to stay as it is, and is not. */
  lemma IdentityEntryIgnored(h: Label, a: Tree, b: Tree)
    requires a != b
    ensures var x := Node(h, [a]); x != a ==>
            Subst(map[x := x, a := b], x) == Node(h, [b]) && Ideal(map[x := x, a := b], x) == x
  {
    var x := Node(h, [a]);
    if x != a {
      var ch := map[x := x, a := b];
      assert Rewritten(ch, a) && !Rewritten(ch, x);
      assert SubstAll(ch, x.kids) == [Subst(ch, a)];
    }
  }
}
